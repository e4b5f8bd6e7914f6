/** server.c: the control connection as a stream of command lines, cut in place out of a fixed
    buffer, however the network chops the stream up. */
module Framer {
  import opened CStrings

  const COMMAND_BUFFER_SIZE := 1024
  const LF: char := '\n'
  const CR: char := '\r'

  type Bytes = seq<char>

  // ---- One line -------------------------------------------------------------------

  /** A parsed command: the verb and its argument, both as C strings. */
  datatype Command = Command(verb: CString, arg: CString)

  function LeftTrim(s: Bytes): Bytes
  {
    if s != [] && IsSpace(s[0]) then LeftTrim(s[1..]) else s
  }

  function WithoutCr(line: Bytes): Bytes
  {
    if line != [] && line[|line| - 1] == CR then line[..|line| - 1] else line
  }

  /** The text of a line, without its newline and a CR, up to a first NUL. */
  function Body(line: Bytes): CString { Terminated(WithoutCr(line)) }

  /** What a line, without its newline, says: up to a first NUL, the verb before the first space
      and the argument behind it, without leading white space. */
  function ParseLine(line: Bytes): Command
  {
    var s := Body(line);
    var i := IndexOf(s, ' ');
    if i < |s| then Command(s[..i], LeftTrim(s[i + 1..])) else Command(s, [])
  }

  // ---- Options of LIST ------------------------------------------------------------

  /** A word up to a blank, and what follows it. */
  function Word(s: CString): (w: CString)
    ensures w <= s
  {
    if s == [] || IsBlank(s[0]) then [] else [s[0]] + Word(s[1..])
  }

  function AfterWord(s: CString): (t: CString)
    ensures |t| <= |s|
  {
    if s == [] || IsBlank(s[0]) then s else AfterWord(s[1..])
  }

  /** What follows the words that start with a dash. */
  function AfterOptions(s: CString): CString
    decreases |s|
  {
    if s == [] || s[0] != '-' then s else AfterOptions(SkipBlanks(AfterWord(s[1..])))
  }

  /** Whether one of those words has the letter a. */
  predicate ShowsAll(s: CString)
    decreases |s|
  {
    s != [] && s[0] == '-' && ('a' in Word(s[1..]) || ShowsAll(SkipBlanks(AfterWord(s[1..]))))
  }

  /** White space that is not blank, with nothing behind it, is not trimmed. */
  function TrimOrAll(t: CString): CString { if RightTrim(t) == [] then t else RightTrim(t) }

  /** The path LIST is given: what follows the options, without trailing white space. */
  function ListPath(s: CString): CString { TrimOrAll(AfterOptions(s)) }

  lemma {:induction false} ListPathIsC(s: CString)
    requires IsC(s)
    ensures IsC(ListPath(s))
  {
    AfterOptionsIsC(s);
  }

  lemma {:induction false} AfterOptionsIsC(s: CString)
    requires IsC(s)
    ensures IsC(AfterOptions(s))
    decreases |s|
  {
    if s != [] && s[0] == '-' {
      AfterWordIsC(s[1..]);
      AfterOptionsIsC(SkipBlanks(AfterWord(s[1..])));
    }
  }

  lemma {:induction false} AfterWordIsC(s: CString)
    requires IsC(s)
    ensures IsC(AfterWord(s))
  {
    if s != [] && !IsBlank(s[0]) { AfterWordIsC(s[1..]); }
  }

  // ---- The stream -----------------------------------------------------------------

  /** Whatever a line may come to say. */
  type LineParser = Bytes -> Command

  /** The reference: the stream split at its newlines, each complete line parsed. */
  function Split(parse: LineParser, s: Bytes): seq<Command>
    decreases |s|
  {
    var i := IndexOf(s, LF);
    if i == |s| then [] else [parse(s[..i])] + Split(parse, s[i + 1..])
  }

  function Commands(s: Bytes): seq<Command> { Split(ParseLine, s) }

  /** What follows the last newline. */
  function Tail(s: Bytes): (t: Bytes)
    ensures |t| <= |s| && LF !in t
    decreases |s|
  {
    var i := IndexOf(s, LF);
    if i == |s| then s else Tail(s[i + 1..])
  }

  /** What the next look at the socket finds. */
  datatype Arrival = Data(bytes: Bytes) | Hangup | Interruption | Failure

  datatype End = Closed | TooLong | Failed | Stopped

  /** read_cmd: receive until the buffer holds a newline. */
  datatype Reading = Line(dirty: Bytes, rest: seq<Arrival>) | Over(end: End)

  function Read(dirty: Bytes, arrivals: seq<Arrival>): (r: Reading)
    ensures r.Line? ==> LF in r.dirty && |r.rest| <= |arrivals|
    ensures r.Line? && |dirty| < COMMAND_BUFFER_SIZE ==> |r.dirty| < COMMAND_BUFFER_SIZE
    ensures r.Line? && |r.rest| == |arrivals| ==> r.dirty == dirty
    decreases |arrivals|
  {
    if LF in dirty then Line(dirty, arrivals)
    else if arrivals == [] then Over(Closed)
    else
      match arrivals[0]
      case Data(d) =>
        if d == [] then Over(Closed)
        else if |dirty| + |d| >= COMMAND_BUFFER_SIZE then Over(TooLong)
        else Read(dirty + d, arrivals[1..])
      case Hangup => Over(Closed)
      case Interruption => Read(dirty, arrivals[1..])
      case Failure => Over(Failed)
  }

  datatype Served = Served(commands: seq<Command>, end: End)

  /** The main loop of ftp_main: read, parse, execute and remove. `stops(n)` says whether the n-th
      command ends the session. */
  function Serve(parse: LineParser, dirty: Bytes, arrivals: seq<Arrival>, stops: nat -> bool, n: nat): Served
    decreases |arrivals|, |dirty|
  {
    match Read(dirty, arrivals)
    case Over(end) => Served([], end)
    case Line(d, rest) =>
      var i := IndexOf(d, LF);
      var c := parse(d[..i]);
      if stops(n) then Served([c], Stopped)
      else
        var after := Serve(parse, d[i + 1..], rest, stops, n + 1);
        Served([c] + after.commands, after.end)
  }

  /** All the bytes the client gets through before the connection ends. */
  function Received(arrivals: seq<Arrival>): Bytes
  {
    if arrivals == [] then []
    else
      match arrivals[0]
      case Data(d) => if d == [] then [] else d + Received(arrivals[1..])
      case Interruption => Received(arrivals[1..])
      case _ => []
  }

  /** Commands up to and including the first that stops the session. */
  function Until(cs: seq<Command>, stops: nat -> bool, n: nat): seq<Command>
    decreases |cs|
  {
    if cs == [] then [] else if stops(n) then [cs[0]] else [cs[0]] + Until(cs[1..], stops, n + 1)
  }

  lemma {:induction false} IndexAppend(s: Bytes, t: Bytes, c: char)
    ensures IndexOf(s + t, c) == if c in s then IndexOf(s, c) else |s| + IndexOf(t, c)
  {
    if s == [] {
      assert s + t == t;
    } else if s[0] != c {
      assert (s + t)[1..] == s[1..] + t;
      IndexAppend(s[1..], t, c);
    }
  }

  /** Reading only moves bytes from the network into the buffer. */
  lemma {:induction false} ReadKeepsTheStream(dirty: Bytes, arrivals: seq<Arrival>)
    ensures match Read(dirty, arrivals)
            case Line(d, rest) => d + Received(rest) == dirty + Received(arrivals)
            case Over(end) => LF !in dirty && (end != TooLong ==> LF !in dirty + Received(arrivals))
    decreases |arrivals|
  {
    if LF !in dirty && arrivals != [] {
      match arrivals[0]
      case Data(d) =>
        if d != [] && |dirty| + |d| < COMMAND_BUFFER_SIZE {
          ReadKeepsTheStream(dirty + d, arrivals[1..]);
          assert (dirty + d) + Received(arrivals[1..]) == dirty + Received(arrivals);
        }
      case Interruption => ReadKeepsTheStream(dirty, arrivals[1..]);
      case _ =>
    }
  }

  lemma {:induction false} CommandsOfNone(parse: LineParser, s: Bytes)
    requires LF !in s
    ensures Split(parse, s) == []
  {
    IndexIs(s, LF, |s|);
  }

  /** The first line of a stream, when it is all in the first part. */
  lemma {:induction false} CommandsFirst(parse: LineParser, d: Bytes, rest: Bytes)
    requires LF in d
    ensures var i := IndexOf(d, LF);
            i < |d| && Split(parse, d + rest) == [parse(d[..i])] + Split(parse, d[i + 1..] + rest)
  {
    var i := IndexIsInside(d);
    assert (d + rest)[..i] == d[..i] && (d + rest)[i + 1..] == d[i + 1..] + rest;
    IndexIs(d + rest, LF, i);
    SplitOne(parse, d + rest, i);
  }

  lemma {:induction false} IndexIsInside(d: Bytes) returns (i: nat)
    requires LF in d
    ensures i == IndexOf(d, LF) < |d|
  {
    i := IndexOf(d, LF);
    assert d[..|d|] == d;
  }

  lemma {:induction false} SplitOne(parse: LineParser, s: Bytes, i: nat)
    requires i == IndexOf(s, LF) < |s|
    ensures Split(parse, s) == [parse(s[..i])] + Split(parse, s[i + 1..])
  {}

  /** Whatever the chunks: the commands dispatched are a prefix of the split of the stream, and all
      of it, up to a command that stops the session, unless the buffer fills. */
  lemma {:induction false} ServeSplitsTheStream(parse: LineParser, dirty: Bytes, arrivals: seq<Arrival>, stops: nat -> bool, n: nat)
    ensures Complete(Serve(parse, dirty, arrivals, stops, n), Until(Split(parse, dirty + Received(arrivals)), stops, n))
    decreases |arrivals|, |dirty|
  {
    ReadKeepsTheStream(dirty, arrivals);
    match Read(dirty, arrivals)
    case Over(end) =>
      if end != TooLong { CommandsOfNone(parse, dirty + Received(arrivals)); }
    case Line(d, rest) =>
      var i := IndexIsInside(d);
      var c, next := parse(d[..i]), d[i + 1..];
      CommandsFirst(parse, d, Received(rest));
      UntilFirst(c, Split(parse, next + Received(rest)), stops, n);
      ServeLine(parse, dirty, arrivals, stops, n, d, rest, i);
      if !stops(n) {
        ServeSplitsTheStream(parse, next, rest, stops, n + 1);
        CompleteBehind(c, Serve(parse, next, rest, stops, n + 1), Until(Split(parse, next + Received(rest)), stops, n + 1));
      }
  }

  /** A session dispatched a prefix of these commands, and all of them unless the buffer filled. */
  predicate Complete(s: Served, all: seq<Command>)
  {
    s.commands <= all && (s.end != TooLong ==> s.commands == all)
  }

  lemma {:induction false} CompleteBehind(c: Command, s: Served, all: seq<Command>)
    requires Complete(s, all)
    ensures Complete(Served([c] + s.commands, s.end), [c] + all)
  {}

  /** One command of a session. */
  lemma {:induction false} ServeLine(parse: LineParser, dirty: Bytes, arrivals: seq<Arrival>, stops: nat -> bool, n: nat,
                                     d: Bytes, rest: seq<Arrival>, i: nat)
    requires Read(dirty, arrivals) == Line(d, rest) && i == IndexOf(d, LF) < |d|
    ensures Serve(parse, dirty, arrivals, stops, n) ==
            if stops(n) then Served([parse(d[..i])], Stopped)
            else
              var after := Serve(parse, d[i + 1..], rest, stops, n + 1);
              Served([parse(d[..i])] + after.commands, after.end)
  {}

  lemma {:induction false} UntilFirst(c: Command, cs: seq<Command>, stops: nat -> bool, n: nat)
    ensures Until([c] + cs, stops, n) == if stops(n) then [c] else [c] + Until(cs, stops, n + 1)
  {
    assert ([c] + cs)[1..] == cs;
  }

  /** Two ways of chopping up the same bytes that never fill the buffer dispatch the same commands. */
  lemma {:induction false} ChunkingDoesNotMatter(parse: LineParser, a: seq<Arrival>, b: seq<Arrival>, stops: nat -> bool)
    requires Received(a) == Received(b)
    requires Serve(parse, [], a, stops, 0).end != TooLong && Serve(parse, [], b, stops, 0).end != TooLong
    ensures Serve(parse, [], a, stops, 0).commands == Serve(parse, [], b, stops, 0).commands
  {
    ServeSplitsTheStream(parse, [], a, stops, 0);
    ServeSplitsTheStream(parse, [], b, stops, 0);
  }

  /** How many complete lines there are. */
  function Lines(s: Bytes): (k: nat)
    ensures k == 0 <==> LF !in s
    decreases |s|
  {
    var i := IndexOf(s, LF);
    if i == |s| then assert s[..i] == s; 0 else 1 + Lines(s[i + 1..])
  }

  /** One of the k commands from the n-th on ends the session. */
  ghost predicate StopsWithin(stops: nat -> bool, n: nat, k: nat) { exists j: nat :: n <= j < n + k && stops(j) }

  /** Some chunk, added to what had arrived since the last newline, reaches the buffer size, before a
      command ends the session; `n` commands came before. */
  ghost predicate Overruns(tail: Bytes, arrivals: seq<Arrival>, stops: nat -> bool, n: nat)
    decreases |arrivals|
  {
    arrivals != [] &&
    match arrivals[0]
    case Data(d) =>
      d != [] && (|tail| + |d| >= COMMAND_BUFFER_SIZE ||
      var k := Lines(tail + d);
      (!StopsWithin(stops, n, k) && Overruns(Tail(tail + d), arrivals[1..], stops, n + k)))
    case Interruption => Overruns(tail, arrivals[1..], stops, n)
    case _ => false
  }

  /** The same when there may be lines left in the buffer. */
  ghost predicate WillOverrun(dirty: Bytes, arrivals: seq<Arrival>, stops: nat -> bool, n: nat)
  {
    BehindLines(Tail(dirty), Lines(dirty), arrivals, stops, n)
  }

  ghost predicate BehindLines(tail: Bytes, k: nat, arrivals: seq<Arrival>, stops: nat -> bool, n: nat)
  {
    !StopsWithin(stops, n, k) && Overruns(tail, arrivals, stops, n + k)
  }

  /** The session is dropped as too long exactly when the stream overruns before a command ends the
      session: that depends on the chunks, and on where the lines end in them, but not on how long
      any line is. */
  lemma {:induction false} FillsExactlyOnOverrun(parse: LineParser, dirty: Bytes, arrivals: seq<Arrival>, stops: nat -> bool, n: nat)
    ensures Serve(parse, dirty, arrivals, stops, n).end == TooLong <==> WillOverrun(dirty, arrivals, stops, n)
    decreases |arrivals|, |dirty|
  {
    if LF in dirty {
      var i := IndexIsInside(dirty);
      var next := dirty[i + 1..];
      TailFirst(dirty);
      OverrunBehindLine(dirty, next, arrivals, stops, n);
      ServeLine(parse, dirty, arrivals, stops, n, dirty, arrivals, i);
      if !stops(n) { FillsExactlyOnOverrun(parse, next, arrivals, stops, n + 1); }
    } else {
      OverrunInNextChunk(dirty, arrivals, stops, n);
      if arrivals != [] {
        match arrivals[0]
        case Data(d) =>
          if d != [] && |dirty| + |d| < COMMAND_BUFFER_SIZE {
            FillsExactlyOnOverrun(parse, dirty + d, arrivals[1..], stops, n);
            SameReading(parse, dirty, arrivals, dirty + d, arrivals[1..], stops, n);
          }
        case Interruption =>
          FillsExactlyOnOverrun(parse, dirty, arrivals[1..], stops, n);
          SameReading(parse, dirty, arrivals, dirty, arrivals[1..], stops, n);
        case _ =>
      }
    }
  }

  lemma {:induction false} OverrunBehindLine(dirty: Bytes, next: Bytes, arrivals: seq<Arrival>, stops: nat -> bool, n: nat)
    requires Tail(dirty) == Tail(next) && Lines(dirty) == 1 + Lines(next)
    ensures WillOverrun(dirty, arrivals, stops, n) <==> !stops(n) && WillOverrun(next, arrivals, stops, n + 1)
  {
    OneLineLess(Tail(dirty), Lines(next), arrivals, stops, n);
  }

  lemma {:induction false} OneLineLess(tail: Bytes, k: nat, arrivals: seq<Arrival>, stops: nat -> bool, n: nat)
    ensures BehindLines(tail, 1 + k, arrivals, stops, n) <==> !stops(n) && BehindLines(tail, k, arrivals, stops, n + 1)
  {
    StopsFirst(stops, n, k);
    assert n + (1 + k) == (n + 1) + k;
  }

  lemma {:induction false} StopsFirst(stops: nat -> bool, n: nat, k: nat)
    ensures StopsWithin(stops, n, 1 + k) <==> stops(n) || StopsWithin(stops, n + 1, k)
  {
    if stops(n) { assert n <= n < n + 1 + k; }
  }

  lemma {:induction false} OverrunInNextChunk(dirty: Bytes, arrivals: seq<Arrival>, stops: nat -> bool, n: nat)
    requires LF !in dirty
    ensures WillOverrun(dirty, arrivals, stops, n) <==>
            arrivals != [] &&
            match arrivals[0]
            case Data(d) =>
              d != [] && (|dirty| + |d| >= COMMAND_BUFFER_SIZE || WillOverrun(dirty + d, arrivals[1..], stops, n))
            case Interruption => WillOverrun(dirty, arrivals[1..], stops, n)
            case _ => false
  {
    IndexIs(dirty, LF, |dirty|);
  }

  /** The same line over and over. */
  function Repeated(line: Bytes, k: nat): Bytes
  {
    if k == 0 then [] else line + Repeated(line, k - 1)
  }

  function Chunks(line: Bytes, k: nat): seq<Arrival>
  {
    if k == 0 then [] else [Data(line)] + Chunks(line, k - 1)
  }

  predicate IsLine(line: Bytes) { line != [] && IndexOf(line, LF) == |line| - 1 }

  /** A short line, as many times as it takes to fill the buffer: sent at once, none of the commands
      gets through; sent one by one, all of them do. */
  lemma {:induction false} ABurstIsTooLong(parse: LineParser, stops: nat -> bool, line: Bytes, k: nat)
    requires IsLine(line) && |line| < COMMAND_BUFFER_SIZE <= |Repeated(line, k)| && forall j: nat :: !stops(j)
    ensures Serve(parse, [], [Data(Repeated(line, k))], stops, 0) == Served([], TooLong)
    ensures Serve(parse, [], Chunks(line, k), stops, 0).commands == Parsed(parse, line, k)
    ensures |Parsed(parse, line, k)| == k
  {
    SlowNeverOverruns(stops, line, k, 0);
    FillsExactlyOnOverrun(parse, [], Chunks(line, k), stops, 0);
    ServeSplitsTheStream(parse, [], Chunks(line, k), stops, 0);
    ChunksReceived(line, k);
    assert [] + Repeated(line, k) == Repeated(line, k);
    RepeatedSplit(parse, line, k);
    UntilTheEnd(Split(parse, Repeated(line, k)), stops, 0);
  }

  function Parsed(parse: LineParser, line: Bytes, k: nat): seq<Command>
    requires line != []
  {
    if k == 0 then [] else [parse(line[..|line| - 1])] + Parsed(parse, line, k - 1)
  }

  lemma {:induction false} RepeatedSplit(parse: LineParser, line: Bytes, k: nat)
    requires IsLine(line)
    ensures Split(parse, Repeated(line, k)) == Parsed(parse, line, k) && |Parsed(parse, line, k)| == k
  {
    if k > 0 {
      RepeatedSplit(parse, line, k - 1);
      assert LF in line;
      CommandsFirst(parse, line, Repeated(line, k - 1));
      assert line[|line|..] + Repeated(line, k - 1) == Repeated(line, k - 1);
    }
  }

  lemma {:induction false} SlowNeverOverruns(stops: nat -> bool, line: Bytes, k: nat, n: nat)
    requires IsLine(line) && |line| < COMMAND_BUFFER_SIZE && forall j: nat :: !stops(j)
    ensures !Overruns([], Chunks(line, k), stops, n)
  {
    if k > 0 {
      assert Chunks(line, k)[1..] == Chunks(line, k - 1);
      SlowNeverOverruns(stops, line, k - 1, n + 1);
      OneLineKeepsUp(stops, line, Chunks(line, k), n);
    }
  }

  lemma {:induction false} OneLineKeepsUp(stops: nat -> bool, line: Bytes, arrivals: seq<Arrival>, n: nat)
    requires IsLine(line) && |line| < COMMAND_BUFFER_SIZE && arrivals != [] && arrivals[0] == Data(line)
    requires !Overruns([], arrivals[1..], stops, n + 1)
    ensures !Overruns([], arrivals, stops, n)
  {
    assert [] + line == line;
    assert LF in line && line[|line|..] == [];
    TailFirst(line);
  }

  lemma {:induction false} ChunksReceived(line: Bytes, k: nat)
    requires line != []
    ensures Received(Chunks(line, k)) == Repeated(line, k)
  {
    if k > 0 {
      assert Chunks(line, k)[1..] == Chunks(line, k - 1);
      ChunksReceived(line, k - 1);
    }
  }

  /** What ends the stream: the first hang-up, empty read or failure, or no more arrivals. */
  predicate FailsFirst(arrivals: seq<Arrival>)
  {
    arrivals != [] &&
    match arrivals[0]
    case Failure => true
    case Hangup => false
    case Data(d) => d != [] && FailsFirst(arrivals[1..])
    case Interruption => FailsFirst(arrivals[1..])
  }

  /** A session that is not dropped as too long ends with the command that stops it, or as its stream does. */
  lemma {:induction false} EndsAsTheStream(parse: LineParser, dirty: Bytes, arrivals: seq<Arrival>, stops: nat -> bool, n: nat)
    ensures var end := Serve(parse, dirty, arrivals, stops, n).end;
            end == TooLong || end == Stopped || end == if FailsFirst(arrivals) then Failed else Closed
    decreases |arrivals|, |dirty|
  {
    ReadsOn(dirty, arrivals);
    match Read(dirty, arrivals)
    case Over(_) =>
    case Line(d, rest) =>
      var i := IndexIsInside(d);
      ServeLine(parse, dirty, arrivals, stops, n, d, rest, i);
      if !stops(n) { EndsAsTheStream(parse, d[i + 1..], rest, stops, n + 1); }
  }

  lemma {:induction false} ReadsOn(dirty: Bytes, arrivals: seq<Arrival>)
    ensures match Read(dirty, arrivals)
            case Over(end) => end == TooLong || end == if FailsFirst(arrivals) then Failed else Closed
            case Line(_, rest) => FailsFirst(rest) == FailsFirst(arrivals)
    decreases |arrivals|
  {
    if LF !in dirty && arrivals != [] {
      match arrivals[0]
      case Data(d) => if d != [] && |dirty| + |d| < COMMAND_BUFFER_SIZE { ReadsOn(dirty + d, arrivals[1..]); }
      case Interruption => ReadsOn(dirty, arrivals[1..]);
      case _ =>
    }
  }

  lemma {:induction false} UntilTheEnd(cs: seq<Command>, stops: nat -> bool, n: nat)
    requires forall j: nat :: !stops(j)
    ensures Until(cs, stops, n) == cs
    decreases |cs|
  {
    if cs != [] { UntilTheEnd(cs[1..], stops, n + 1); }
  }

  lemma {:induction false} TailFirst(s: Bytes)
    requires LF in s
    ensures IndexOf(s, LF) < |s| && Tail(s) == Tail(s[IndexOf(s, LF) + 1..])
    ensures Lines(s) == 1 + Lines(s[IndexOf(s, LF) + 1..])
  {
    assert s[..|s|] == s;
  }

  lemma {:induction false} SameReading(parse: LineParser, a: Bytes, x: seq<Arrival>, b: Bytes, y: seq<Arrival>, stops: nat -> bool, n: nat)
    requires Read(a, x) == Read(b, y)
    ensures Serve(parse, a, x, stops, n) == Serve(parse, b, y, stops, n)
  {}

  // ---- Printing and parsing -------------------------------------------------------

  /** A command as RFC 959 section 5.3 has it written: verb, space, argument, CRLF. */
  function Print(c: Command): Bytes { c.verb + " " + c.arg + "\r\n" }

  /** Verbs without spaces, arguments that do not start with white space, no control bytes in the way. */
  predicate Printable(c: Command)
  {
    && IsC(c.verb) && ' ' !in c.verb && LF !in c.verb
    && IsC(c.arg) && LF !in c.arg && (c.arg != [] ==> !IsSpace(c.arg[0]))
  }

  lemma {:induction false} ParsePrinted(c: Command)
    requires Printable(c)
    ensures ParseLine(c.verb + " " + c.arg + "\r") == c
  {
    var line := c.verb + " " + c.arg + "\r";
    var s := c.verb + " " + c.arg;
    assert WithoutCr(line) == s;
    assert s[..|s|] == s;
    TerminatedAt(s, |s|);
    assert s[..|c.verb|] == c.verb && s[|c.verb| + 1..] == c.arg;
    IndexIs(s, ' ', |c.verb|);
  }

  function PrintAll(cs: seq<Command>): Bytes
  {
    if cs == [] then [] else Print(cs[0]) + PrintAll(cs[1..])
  }

  /** Printing any commands one after the other and splitting the stream gives them back. */
  lemma {:induction false} PrintedStreamParses(cs: seq<Command>)
    requires forall i | 0 <= i < |cs| :: Printable(cs[i])
    ensures Commands(PrintAll(cs)) == cs
    decreases |cs|
  {
    if cs != [] {
      PrintedLine(cs[0], PrintAll(cs[1..]));
      PrintedStreamParses(cs[1..]);
      assert cs == [cs[0]] + cs[1..];
    }
  }

  lemma {:induction false} PrintedLine(c: Command, rest: Bytes)
    requires Printable(c)
    ensures Commands(Print(c) + rest) == [c] + Commands(rest)
  {
    var line := c.verb + " " + c.arg + "\r";
    assert ParseLine(line) == c by { ParsePrinted(c); }
    PrintedAsLine(c, line);
    FirstLine(ParseLine, line, rest);
  }

  lemma {:induction false} PrintedAsLine(c: Command, line: Bytes)
    requires Printable(c) && line == c.verb + " " + c.arg + "\r"
    ensures Print(c) == line + [LF] && LF !in line
  {}

  // ---- Every form of a line -------------------------------------------------------

  /** White space as isspace knows it. */
  predicate Space(w: Bytes) { forall i | 0 <= i < |w| :: w[i] in {' ', '\t', '\n', '\U{0B}', '\U{0C}', '\r'} }

  lemma {:induction false} LeftTrimIs(w: Bytes, arg: Bytes)
    requires Space(w) && (arg != [] ==> !IsSpace(arg[0]))
    ensures LeftTrim(w + arg) == arg
  {
    if w == [] {
      assert w + arg == arg;
    } else {
      assert (w + arg)[0] == w[0] && (w + arg)[1..] == w[1..] + arg;
      assert forall i | 0 <= i < |w| - 1 :: w[1..][i] == w[i + 1];
      LeftTrimIs(w[1..], arg);
    }
  }

  /** A client's line: a verb, and behind a space any white space and an argument; ended by CRLF or LF. */
  datatype Written = Written(verb: CString, rest: Option<(Bytes, CString)>, cr: bool)

  function TextOf(l: Written): Bytes
  {
    l.verb + match l.rest case None => [] case Some((w, arg)) => " " + w + arg
  }

  /** Verbs have no space, white space no newline, arguments do not start with white space, nothing has a
      NUL or a newline; a line without CR does not end in one. */
  predicate IsWritten(l: Written)
  {
    && IsC(l.verb) && ' ' !in l.verb && LF !in l.verb
    && (l.rest.Some? ==>
          var (w, arg) := l.rest.value;
          Space(w) && LF !in w && IsC(arg) && LF !in arg && (arg != [] ==> !IsSpace(arg[0])))
    && (!l.cr ==> TextOf(l) == [] || TextOf(l)[|TextOf(l)| - 1] != CR)
  }

  function Meant(l: Written): Command { Command(l.verb, if l.rest == None then [] else l.rest.value.1) }

  function LineOf(l: Written): Bytes { if l.cr then TextOf(l) + [CR] else TextOf(l) }

  lemma {:induction false} BodyIs(line: Bytes, s: CString)
    requires IsC(s) && (line == s + [CR] || (line == s && (s == [] || s[|s| - 1] != CR)))
    ensures Body(line) == s
  {
    assert WithoutCr(line) == s;
    assert s[..|s|] == s;
    TerminatedAt(s, |s|);
  }

  /** A line with a verb alone has no argument. */
  lemma {:induction false} VerbAlone(line: Bytes, verb: CString)
    requires Body(line) == verb && ' ' !in verb
    ensures ParseLine(line) == Command(verb, [])
  {
    assert verb[..|verb|] == verb;
    IndexIs(verb, ' ', |verb|);
  }

  /** White space in front of an argument is not part of it. */
  lemma {:induction false} VerbAndArgument(line: Bytes, verb: CString, w: Bytes, arg: CString)
    requires Body(line) == verb + " " + (w + arg) && ' ' !in verb
    requires Space(w) && (arg != [] ==> !IsSpace(arg[0]))
    ensures ParseLine(line) == Command(verb, arg)
  {
    CutAtSpace(Body(line), verb, w + arg);
    LeftTrimIs(w, arg);
    SpaceParses(line, verb, w + arg, arg);
  }

  lemma {:induction false} SpaceParses(line: Bytes, verb: CString, rest: Bytes, arg: CString)
    requires IndexOf(Body(line), ' ') == |verb| < |Body(line)| && LeftTrim(rest) == arg
    requires Body(line)[..|verb|] == verb && Body(line)[|verb| + 1..] == rest
    ensures ParseLine(line) == Command(verb, arg)
  {}

  lemma {:induction false} CutAtSpace(s: Bytes, verb: Bytes, rest: Bytes)
    requires s == verb + " " + rest && ' ' !in verb
    ensures IndexOf(s, ' ') == |verb| < |s| && s[..|verb|] == verb && s[|verb| + 1..] == rest
  {
    assert s[..|verb|] == verb;
    IndexIs(s, ' ', |verb|);
  }

  lemma {:induction false} WrittenParses(l: Written)
    requires IsWritten(l)
    ensures ParseLine(LineOf(l)) == Meant(l)
  {
    var line, s := LineOf(l), TextOf(l);
    assert Body(line) == s by {
      TextIsC(l);
      BodyIs(line, s);
    }
    if l.rest == None {
      assert s == l.verb;
      VerbAlone(line, l.verb);
    } else {
      var w, arg := l.rest.value.0, l.rest.value.1;
      assert s == l.verb + " " + (w + arg) by { RegroupText(l.verb, w, arg); }
      VerbAndArgument(line, l.verb, w, arg);
    }
  }

  lemma {:induction false} RegroupText(verb: Bytes, w: Bytes, arg: Bytes)
    ensures verb + (" " + w + arg) == verb + " " + (w + arg)
  {}

  lemma {:induction false} TextIsC(l: Written)
    requires IsWritten(l)
    ensures IsC(TextOf(l)) && LF !in LineOf(l)
  {
    if l.rest.Some? {
      var (w, arg) := l.rest.value;
      assert NUL !in w;
    }
  }

  /** What follows a NUL in a line does not matter. */
  lemma {:induction false} NulCutsTheLine(text: CString, junk: Bytes)
    requires IsC(text)
    ensures ParseLine(text + [NUL] + junk) == ParseLine(text + [CR])
  {
    var b := WithoutCr(text + [NUL] + junk);
    assert b[..|text|] == text && b[|text|] == NUL;
    TerminatedAt(b, |text|);
    assert WithoutCr(text + [CR]) == text;
    assert text[..|text|] == text;
    TerminatedAt(text, |text|);
  }

  function StreamOf(ls: seq<Written>): Bytes
  {
    if ls == [] then [] else LineOf(ls[0]) + [LF] + StreamOf(ls[1..])
  }

  /** A stream of lines in any of these forms, CRLF and LF mixed, is the commands they mean, in order. */
  lemma {:induction false} WrittenStreamParses(ls: seq<Written>)
    requires forall i | 0 <= i < |ls| :: IsWritten(ls[i])
    ensures |Commands(StreamOf(ls))| == |ls| && forall i | 0 <= i < |ls| :: Commands(StreamOf(ls))[i] == Meant(ls[i])
    decreases |ls|
  {
    if ls != [] {
      WrittenLine(ls[0], StreamOf(ls[1..]));
      WrittenStreamParses(ls[1..]);
      assert forall i | 1 <= i < |ls| :: ls[i] == ls[1..][i - 1];
    }
  }

  lemma {:induction false} WrittenLine(l: Written, rest: Bytes)
    requires IsWritten(l)
    ensures Commands(LineOf(l) + [LF] + rest) == [Meant(l)] + Commands(rest)
  {
    TextIsC(l);
    WrittenParses(l);
    FirstLine(ParseLine, LineOf(l), rest);
  }

  lemma {:induction false} FirstLine(parse: LineParser, line: Bytes, rest: Bytes)
    requires LF !in line
    ensures Split(parse, line + [LF] + rest) == [parse(line)] + Split(parse, rest)
  {
    var p := line + [LF];
    assert p[..|line|] == line;
    IndexIs(p, LF, |line|);
    assert p[|line|] == LF;
    CommandsFirst(parse, p, rest);
    assert p[|line| + 1..] + rest == rest;
  }

  // ---- Every form of an argument of LIST ------------------------------------------

  predicate IsWord(w: CString) { forall i | 0 <= i < |w| :: w[i] != ' ' && w[i] != '\t' }

  lemma {:induction false} WordIs(w: CString, rest: CString)
    requires IsWord(w) && (rest != [] ==> IsBlank(rest[0]))
    ensures Word(w + rest) == w && AfterWord(w + rest) == rest
  {
    if w == [] {
      assert w + rest == rest;
    } else {
      assert (w + rest)[0] == w[0] && (w + rest)[1..] == w[1..] + rest;
      assert forall i | 0 <= i < |w| - 1 :: w[1..][i] == w[i + 1];
      WordIs(w[1..], rest);
    }
  }

  /** An option is passed over with the blanks behind it, and shows hidden entries when it has an a; it is
      the last one when nothing follows. */
  lemma {:induction false} OptionPasses(w: CString, b: CString, rest: CString)
    requires IsWord(w) && Blanks(b) && (b == [] ==> rest == []) && (rest != [] ==> !IsBlank(rest[0]))
    ensures ListPath("-" + w + b + rest) == ListPath(rest)
    ensures ShowsAll("-" + w + b + rest) <==> 'a' in w || ShowsAll(rest)
  {
    var s := "-" + w + b + rest;
    assert s[1..] == w + (b + rest);
    WordIs(w, b + rest);
    SkipBlanksIs(b, rest);
  }

  /** What does not start with a dash is the path, without the white space behind it. */
  lemma {:induction false} PathStays(path: CString, w: CString)
    requires path != [] && path[0] != '-' && !IsSpace(path[|path| - 1]) && Space(w)
    ensures ListPath(path + w) == path && !ShowsAll(path + w)
  {
    var s := path + w;
    assert forall i | |path| <= i < |s| :: s[i] == w[i - |path|];
    RightTrimIs(s, |path|);
    assert s[..|path|] == path;
  }

  /** Nothing but options leaves no path. */
  lemma {:induction false} NoPath()
    ensures ListPath([]) == [] && !ShowsAll([])
  {}

  // ---- The buffer -----------------------------------------------------------------

  /** The control socket. */
  class Socket {
    var arrivals: seq<Arrival>

    constructor (arrivals: seq<Arrival>)
      ensures this.arrivals == arrivals
    {
      this.arrivals := arrivals;
    }

    /** read_poll: at most `max` bytes of the next chunk; the rest of it stays. */
    method ReadPoll(max: nat) returns (a: Arrival)
      requires max > 0
      modifies this
      ensures old(arrivals) == [] ==> a == Hangup && arrivals == []
      ensures old(arrivals) != [] && (old(arrivals)[0].Data? ==> |old(arrivals)[0].bytes| <= max) ==>
                a == old(arrivals)[0] && arrivals == old(arrivals)[1..]
      ensures old(arrivals) != [] && old(arrivals)[0].Data? && |old(arrivals)[0].bytes| > max ==>
                a == Data(old(arrivals)[0].bytes[..max])
      ensures |arrivals| <= |old(arrivals)|
    {
      if arrivals == [] {
        return Hangup;
      }
      a := arrivals[0];
      if a.Data? && |a.bytes| > max {
        arrivals := [Data(a.bytes[max..])] + arrivals[1..];
        a := Data(a.bytes[..max]);
      } else {
        arrivals := arrivals[1..];
      }
    }
  }

  /** ftp_command_t */
  class CommandBuffer {
    const line: array<char>
    var dirty_len: nat
    var len: nat
    var arg: nat

    ghost predicate Valid()
      reads this
    {
      line.Length == COMMAND_BUFFER_SIZE && dirty_len < COMMAND_BUFFER_SIZE
    }

    /** The bytes received and not yet consumed. */
    ghost function Dirty(): Bytes
      requires Valid()
      reads this, line
    {
      line[..dirty_len]
    }

    constructor ()
      ensures Valid() && fresh(line) && Dirty() == []
    {
      line := new char[COMMAND_BUFFER_SIZE];
      dirty_len, len, arg := 0, 0, 0;
    }

    /** read_cmd */
    method ReadCmd(sock: Socket) returns (end: Option<End>)
      requires Valid()
      modifies `dirty_len, line, sock
      ensures match Read(old(Dirty()), old(sock.arrivals))
              case Line(d, rest) => end == None && Valid() && Dirty() == d && sock.arrivals == rest
              case Over(e) => end == Some(e)
    {
      while true
        invariant Valid() && Read(old(Dirty()), old(sock.arrivals)) == Read(Dirty(), sock.arrivals)
        decreases |sock.arrivals|
      {
        var i := 0;
        while i < dirty_len && line[i] != LF
          invariant 0 <= i <= dirty_len && LF !in line[..i]
        {
          i := i + 1;
        }
        if i < dirty_len {
          assert Dirty()[i] == LF;
          return None;
        }
        ghost var before := sock.arrivals;
        var a := sock.ReadPoll(line.Length - dirty_len);
        match a
        case Hangup => return Some(Closed);
        case Failure => return Some(Failed);
        case Interruption =>
        case Data(d) =>
          if d == [] {
            return Some(Closed);
          }
          ghost var was := Dirty();
          Memcpy(line, dirty_len, d);
          dirty_len := dirty_len + |d|;
          if dirty_len >= line.Length {
            return Some(TooLong);
          }
          assert Dirty() == was + d;
      }
    }

    /** remove_cmd */
    method RemoveCmd()
      requires Valid() && len <= dirty_len
      modifies `dirty_len, line
      ensures Valid() && Dirty() == old(Dirty())[len..]
    {
      if len == dirty_len {
        dirty_len := 0;
        return;
      }
      Memcpy(line, 0, line[len..]);
      dirty_len := dirty_len - len;
    }

    /** parse_cmd: cut the first line into verb and argument in place. */
    method ParseCmd()
      requires Valid() && LF in Dirty()
      modifies line, `len, `arg
      ensures Valid() && 0 < len <= dirty_len && arg < len
      ensures len == IndexOf(old(Dirty()), LF) + 1
      ensures Command(Said(), Terminated(line[arg..])) == ParseLine(old(Dirty()[..IndexOf(Dirty(), LF)]))
      ensures line[len..] == old(line[..])[len..] && line[len - 1] == NUL
      ensures line[arg] == NUL || !IsSpace(line[arg])
    {
      ghost var text := Dirty()[..IndexOf(Dirty(), LF)];
      Stringify(text);
      ghost var rest := CutArgument(Body(text));
      CutParses(text, Said(), rest);
    }

    /** The string at the start of the buffer. */
    ghost function Said(): CString reads this, line { Terminated(line[..]) }

    /** The second half of parse_cmd: cut at the first space and skip white space behind it. */
    method CutArgument(ghost s: CString) returns (ghost rest: CString)
      requires Valid() && 0 < len <= line.Length && s == Said() && |s| < len && line[len - 1] == NUL
      modifies line, `arg
      ensures arg < len && line[len..] == old(line[..])[len..] && line[len - 1] == NUL
      ensures Cut(s, Said(), rest) && Terminated(line[arg..]) == LeftTrim(rest)
      ensures line[arg] == NUL || !IsSpace(line[arg])
    {
      SplitArg();
      rest := Terminated(line[arg..]);
      SkipSpaces();
    }

    /** NUL in place of the newline, and of a CR before it. */
    method Stringify(ghost text: Bytes)
      requires Valid() && LF in Dirty() && text == Dirty()[..IndexOf(Dirty(), LF)]
      modifies line, `len
      ensures Valid() && 0 < len <= dirty_len && len == |text| + 1
      ensures Said() == Body(text) && |Said()| < len && line[len - 1] == NUL
      ensures line[len..] == old(line[..])[len..]
    {
      ghost var b := line[..];
      var bufend := FindNewline();
      line[bufend] := NUL;
      len := bufend + 1;
      if bufend != 0 && line[bufend - 1] == CR {
        line[bufend - 1] := NUL;
      }
      Stringified(b, text, line[..]);
    }

    /** NUL in place of the first space; the argument is what follows it. */
    method SplitArg()
      requires Valid() && 0 < len <= line.Length && |Terminated(line[..])| < len && line[len - 1] == NUL
      modifies line, `arg
      ensures arg < len && line[len..] == old(line[..])[len..] && line[len - 1] == NUL
      ensures Cut(old(Said()), Said(), Terminated(line[arg..]))
    {
      ghost var s := Terminated(line[..]);
      var cmdend := FindInString(' ');
      if line[cmdend] == ' ' {
        ghost var before := line[..];
        line[cmdend] := NUL;
        arg := cmdend + 1;
        assert line[..][..cmdend] == s[..cmdend];
        TerminatedAt(line[..], cmdend);
        TailSays(before, |s|, cmdend + 1);
        assert line[arg..] == before[arg..];
      } else {
        arg := len - 1;
        assert line[arg..][0] == NUL;
        TerminatedAt(line[arg..], 0);
      }
    }

    /** memchr for the newline. */
    method FindNewline() returns (i: nat)
      requires Valid() && LF in Dirty()
      ensures i < dirty_len && i == IndexOf(Dirty(), LF) && line[i] == LF
    {
      i := 0;
      while line[i] != LF
        invariant 0 <= i < dirty_len && LF !in line[..i] && LF in line[i..dirty_len]
        decreases dirty_len - i
      {
        assert line[i..dirty_len] == [line[i]] + line[i + 1..dirty_len];
        i := i + 1;
      }
      assert Dirty()[..i] == line[..i];
      IndexIs(Dirty(), LF, i);
    }

    /** strchr from the start of the buffer; the position of the terminator when c is not there. */
    method FindInString(c: char) returns (i: nat)
      requires Valid() && c != NUL && |Terminated(line[..])| < line.Length
      ensures i == IndexOf(Terminated(line[..]), c) <= |Terminated(line[..])|
      ensures i < |Terminated(line[..])| <==> line[i] == c
    {
      ghost var s := Terminated(line[..]);
      i := 0;
      while line[i] != NUL && line[i] != c
        invariant 0 <= i <= |s| && c !in s[..i]
        decreases |s| - i
      {
        assert line[i] == s[i];
        i := i + 1;
      }
      assert i < |s| ==> s[i] == line[i];
      IndexIs(s, c, i);
    }

    /** The loop that strips white space before the argument. */
    method SkipSpaces()
      requires Valid() && arg < len <= line.Length && line[len - 1] == NUL
      modifies `arg
      ensures arg < len && Terminated(line[arg..]) == LeftTrim(old(Terminated(line[arg..])))
      ensures line[arg] == NUL || !IsSpace(line[arg])
    {
      while line[arg] != NUL && IsSpace(line[arg])
        invariant arg < len
        invariant LeftTrim(Terminated(line[arg..])) == LeftTrim(old(Terminated(line[arg..])))
        decreases len - arg
      {
        assert line[arg..][0] == line[arg] && line[arg..][1..] == line[arg + 1..];
        arg := arg + 1;
      }
      assert line[arg..][0] == line[arg];
    }

    /** The part of dorest that edits the buffer: trim the argument. What the commands behind this
        one have in the buffer stays as it was. */
    method RestArgument() returns (start: nat)
      requires Valid() && arg < len <= dirty_len && line[len - 1] == NUL
      requires line[arg] == NUL || !IsSpace(line[arg])
      modifies line
      ensures Valid() && arg <= start < len && line[..][len..] == old(line[..])[len..]
      ensures Terminated(line[..][start..]) == RightTrim(Terminated(old(line[..])[arg..]))
    {
      ghost var b := line[..];
      start := Trim(b, arg, arg);
      StartsSolid(b, arg);
    }

    /** trim_whitespace on the end of the current command. */
    method Trim(ghost b: Bytes, ghost low: nat, at: nat) returns (start: nat)
      requires Valid() && b == line[..] && at < len <= dirty_len && b[len - 1] == NUL && StartsAt(b, low, at)
      modifies line
      ensures Valid() && at <= start < len && line[..][len..] == b[len..]
      ensures Terminated(line[..][start..]) == TrimOrAll(Terminated(b[at..]))
    {
      ghost var cut;
      assert HasStop(b, at, low) by { SolidBefore(b, low, at); }
      start, cut := TrimWhitespace(line, at, b, len - 1, low);
      Trimmed(b, low, at, start, cut, line[..], len);
    }

    /** The loop over option words. */
    method SkipOptions(ghost b: Bytes) returns (opt_a: bool, at: nat, ghost low: nat)
      requires Valid() && b == line[..] && arg < len <= dirty_len && b[len - 1] == NUL
      requires b[arg] == NUL || !IsSpace(b[arg])
      ensures arg <= low <= at < len && b[at] != '-' && Reached(b, arg, low, at, opt_a)
    {
      at, low, opt_a := arg, arg, false;
      assert Reached(b, arg, low, at, opt_a);
      while line[at] == '-'
        invariant arg <= low <= at < len && Reached(b, arg, low, at, opt_a)
        decreases len - at
      {
        low := at;
        opt_a, at := TakeOption(arg, at, opt_a, b);
      }
    }

    /** One more option. */
    method TakeOption(ghost from: nat, low: nat, before: bool, ghost b: Bytes) returns (opt_a: bool, at: nat)
      requires Valid() && b == line[..] && from <= low < len <= dirty_len && b[len - 1] == NUL && b[low] == '-'
      requires OptionsSeen(b, from, low, before)
      ensures low < at < len && Reached(b, from, low, at, opt_a)
    {
      var seen_a;
      seen_a, at := SkipOption(low, b);
      opt_a := before || seen_a;
      assert OptionsSeen(b, from, at, before || seen_a) by { OptionTurn(b, from, low, at, before, seen_a); }
    }

    /** One option word and the blanks behind it. */
    method SkipOption(low: nat, ghost b: Bytes) returns (seen_a: bool, at: nat)
      requires Valid() && b == line[..] && low < len <= dirty_len && b[len - 1] == NUL && b[low] == '-'
      ensures low < at < len && StartsAt(b, low, at) && OptionsSeen(b, low, at, seen_a)
    {
      var end;
      seen_a, end := SkipWord(low + 1, b);
      at := AfterBlanks(line, end, b, len - 1);
      OptionStep(b, low, end, at);
    }

    /** The inner loop of an option word; only the letter a means anything. */
    method SkipWord(from: nat, ghost b: Bytes) returns (seen_a: bool, end: nat)
      requires Valid() && b == line[..] && from < len <= dirty_len && line[len - 1] == NUL
      ensures from <= end < len && (b[end] == NUL || IsBlank(b[end]))
      ensures seen_a == ('a' in Word(Terminated(b[from..])))
      ensures Terminated(b[end..]) == AfterWord(Terminated(b[from..]))
    {
      end, seen_a := from, false;
      while line[end] != NUL && !IsBlank(line[end])
        invariant from <= end < len && WordSeen(b, from, end, seen_a)
        decreases len - end
      {
        assert WordSeen(b, from, end + 1, seen_a || b[end] == 'a') by { WordStep(b, from, end, seen_a); }
        if line[end] == 'a' { seen_a := true; }
        end := end + 1;
      }
      WordEnd(b, from, end, seen_a);
    }

    /** parse_list_options: skip words that start with a dash, then trim. Even when nothing but
        white space is left to trim, the walk back stops inside this command. */
    method ListArgument() returns (opt_a: bool, start: nat)
      requires Valid() && arg < len <= dirty_len && line[len - 1] == NUL
      requires line[arg] == NUL || !IsSpace(line[arg])
      modifies line
      ensures Valid() && arg <= start < len && line[..][len..] == old(line[..])[len..]
      ensures Terminated(line[..][start..]) == ListPath(Terminated(old(line[..])[arg..]))
      ensures opt_a == ShowsAll(Terminated(old(line[..])[arg..]))
    {
      ghost var b := line[..];
      var at;
      ghost var low;
      opt_a, at, low := SkipOptions(b);
      assert Terminated(b[at..]) == AfterOptions(Terminated(b[arg..])) && opt_a == ShowsAll(Terminated(b[arg..])) by {
        OptionsEnd(b, arg, at, opt_a);
      }
      start := Trim(b, low, at);
    }

    /** do_cmd as the buffer sees it: whatever a handler does to its command, it writes no further. */
    method DoCmd()
      requires Valid() && 0 < len <= dirty_len
      modifies line
      ensures Valid() && line[..][len..] == old(line[..])[len..]
    {
      var k, c: char :| k < len;
      if 0 <= k {
        line[k] := c;
      }
    }

    /** The main loop of ftp_main. */
    method FtpMain(sock: Socket, stops: nat -> bool) returns (commands: seq<Command>, end: End)
      requires Valid() && Dirty() == []
      modifies this, line, sock
      ensures Served(commands, end) == Serve(ParseLine, [], old(sock.arrivals), stops, 0)
    {
      commands := [];
      ghost var all := Serve(ParseLine, [], sock.arrivals, stops, 0);
      while true
        invariant Valid()
        invariant all == Behind(commands, Serve(ParseLine, Dirty(), sock.arrivals, stops, |commands|))
        decreases |sock.arrivals|, dirty_len
      {
        ghost var dirty, arrivals := Dirty(), sock.arrivals;
        var over := ReadCmd(sock);
        if over != None {
          return commands, over.value;
        }
        ghost var d, rest := Dirty(), sock.arrivals;
        var stop := stops(|commands|);
        var c := NextCommand();
        ServeStep(ParseLine, dirty, arrivals, stops, commands, d, rest);
        commands := commands + [c];
        if stop {
          return commands, Stopped;
        }
      }
    }

    /** Parse, execute and remove one command. */
    method NextCommand() returns (c: Command)
      requires Valid() && LF in Dirty()
      modifies line, `dirty_len, `len, `arg
      ensures Valid() && c == ParseLine(old(Dirty())[..IndexOf(old(Dirty()), LF)])
      ensures Dirty() == old(Dirty())[IndexOf(old(Dirty()), LF) + 1..]
    {
      ghost var b := line[..];
      ParseCmd();
      c := Command(Terminated(line[..]), Terminated(line[arg..]));
      DoCmd();
      SameRear(b, line[..], len, dirty_len);
      RemoveCmd();
    }
  }

  /** A session that continues one which has already dispatched some commands. */
  function Behind(before: seq<Command>, s: Served): Served { Served(before + s.commands, s.end) }

  lemma {:induction false} ServeStep(parse: LineParser, dirty: Bytes, arrivals: seq<Arrival>, stops: nat -> bool,
                                     before: seq<Command>, d: Bytes, rest: seq<Arrival>)
    requires Read(dirty, arrivals) == Line(d, rest)
    ensures var c := parse(d[..IndexOf(d, LF)]);
            var next := d[IndexOf(d, LF) + 1..];
            Behind(before, Serve(parse, dirty, arrivals, stops, |before|)) ==
            if stops(|before|) then Served(before + [c], Stopped)
            else Behind(before + [c], Serve(parse, next, rest, stops, |before + [c]|))
  {
    var c := parse(d[..IndexOf(d, LF)]);
    var n := |before|;
    if !stops(n) {
      var after := Serve(parse, d[IndexOf(d, LF) + 1..], rest, stops, n + 1);
      assert Serve(parse, dirty, arrivals, stops, n) == Served([c] + after.commands, after.end);
      RegroupCommands(before, c, after.commands);
      assert |before + [c]| == n + 1;
    }
  }

  lemma {:induction false} RegroupCommands(before: seq<Command>, c: Command, after: seq<Command>)
    ensures before + ([c] + after) == before + [c] + after
  {}

  lemma {:induction false} SameRear(b: Bytes, c: Bytes, from: nat, to: nat)
    requires from <= to <= |b| == |c| && b[from..] == c[from..]
    ensures b[..to][from..] == c[..to][from..]
  {
    assert b[..to][from..] == b[from..][..to - from] && c[..to][from..] == c[from..][..to - from];
  }

  /** A string cut at its first space. */
  ghost predicate Cut(s: CString, verb: CString, rest: CString)
  {
    var i := IndexOf(s, ' ');
    if i < |s| then verb == s[..i] && rest == s[i + 1..] else verb == s && rest == []
  }

  lemma {:induction false} CutParses(text: Bytes, verb: CString, rest: CString)
    requires Cut(Body(text), verb, rest)
    ensures ParseLine(text) == Command(verb, LeftTrim(rest))
  {}

  /** The first line cut off behind its text, with or without a CR. */
  lemma {:induction false} Stringified(b: Bytes, text: Bytes, c: Bytes)
    requires |text| < |b| && b[..|text|] == text
    requires c == if text != [] && text[|text| - 1] == CR then b[|text| := NUL][|text| - 1 := NUL] else b[|text| := NUL]
    ensures Terminated(c) == Body(text) && |Terminated(c)| <= |text|
    ensures c[|text|] == NUL && c[|text| + 1..] == b[|text| + 1..]
  {
    assert c[..|WithoutCr(text)|] == WithoutCr(text);
    SameStart(c, WithoutCr(text));
  }

  lemma {:induction false} CutInside(b: Bytes, c: nat, len: nat)
    requires c < len <= |b|
    ensures b[c := NUL][len..] == b[len..]
  {}

  /** A string that does not start with white space has something to trim back to. */
  lemma {:induction false} StartsSolid(b: Bytes, at: nat)
    requires at < |b| && (b[at] == NUL || !IsSpace(b[at]))
    ensures var t := Terminated(b[at..]);
            && (t != [] ==> !IsSpace(b[at])) && SkipBlanks(t) == t && (RightTrim(t) == [] ==> t == [])
  {
    var t := Terminated(b[at..]);
    if t != [] {
      assert t[0] == b[at];
      RightTrimKeeps(t, 0);
    }
  }

  /** What the option parser has in front of the word it has come to: nothing, or an option and blanks. */
  ghost predicate StartsAt(b: Bytes, low: nat, at: nat)
  {
    && low <= at < |b|
    && (if low < at then b[low] == '-' && (b[at] == NUL || IsBlank(b[at - 1])) else b[low] == NUL || !IsSpace(b[low]))
    && !IsBlank(b[at])
  }

  /** The options from `arg` on, of which those before `at` are done with. */
  ghost predicate OptionsSeen(b: Bytes, arg: nat, at: nat, opt_a: bool)
    requires arg <= at <= |b|
  {
    && AfterOptions(Terminated(b[at..])) == AfterOptions(Terminated(b[arg..]))
    && (ShowsAll(Terminated(b[arg..])) <==> opt_a || ShowsAll(Terminated(b[at..])))
  }

  /** The parser has come to `at`, behind the option at `low`, if there was one. */
  ghost predicate Reached(b: Bytes, arg: nat, low: nat, at: nat, opt_a: bool)
    requires arg <= at <= |b|
  {
    StartsAt(b, low, at) && OptionsSeen(b, arg, at, opt_a)
  }

  lemma {:induction false} OptionTurn(b: Bytes, arg: nat, low: nat, at: nat, opt_a: bool, seen: bool)
    requires arg <= low <= at <= |b| && OptionsSeen(b, arg, low, opt_a) && OptionsSeen(b, low, at, seen)
    ensures OptionsSeen(b, arg, at, opt_a || seen)
  {}

  lemma {:induction false} OptionsEnd(b: Bytes, arg: nat, at: nat, opt_a: bool)
    requires arg <= at < |b| && OptionsSeen(b, arg, at, opt_a) && b[at] != '-'
    ensures Terminated(b[at..]) == AfterOptions(Terminated(b[arg..]))
    ensures opt_a == ShowsAll(Terminated(b[arg..]))
  {
    FirstOf(b, at);
  }

  /** The option word at `low` and the blanks behind it. */
  lemma {:induction false} OptionStep(b: Bytes, low: nat, end: nat, at: nat)
    requires low < end <= at < |b| && b[low] == '-' && (b[end] == NUL || IsBlank(b[end]))
    requires Terminated(b[end..]) == AfterWord(Terminated(b[low + 1..]))
    requires Terminated(b[at..]) == SkipBlanks(Terminated(b[end..]))
    requires at + |Terminated(b[at..])| == end + |Terminated(b[end..])|
    ensures StartsAt(b, low, at) && OptionsSeen(b, low, at, 'a' in Word(Terminated(b[low + 1..])))
  {
    BlankBefore(b, end, at);
    FirstOf(b, low);
    var s := Terminated(b[low..]);
    assert s[0] == '-' && s[1..] == Terminated(b[low + 1..]);
    assert AfterOptions(s) == AfterOptions(Terminated(b[at..]));
  }

  /** The option word from `from` on, of which the part before `at` is done with. */
  ghost predicate WordSeen(b: Bytes, from: nat, at: nat, seen_a: bool)
    requires from <= at <= |b|
  {
    && AfterWord(Terminated(b[at..])) == AfterWord(Terminated(b[from..]))
    && ('a' in Word(Terminated(b[from..])) <==> seen_a || 'a' in Word(Terminated(b[at..])))
  }

  lemma {:induction false} WordStep(b: Bytes, from: nat, at: nat, seen_a: bool)
    requires from <= at < |b| && b[at] != NUL && !IsBlank(b[at]) && WordSeen(b, from, at, seen_a)
    ensures WordSeen(b, from, at + 1, seen_a || b[at] == 'a')
  {
    FirstOf(b, at);
    var t := Terminated(b[at..]);
    assert t[1..] == Terminated(b[at + 1..]);
    assert Word(t) == [b[at]] + Word(t[1..]);
  }

  lemma {:induction false} WordEnd(b: Bytes, from: nat, at: nat, seen_a: bool)
    requires from <= at < |b| && (b[at] == NUL || IsBlank(b[at])) && WordSeen(b, from, at, seen_a)
    ensures seen_a == ('a' in Word(Terminated(b[from..]))) && Terminated(b[at..]) == AfterWord(Terminated(b[from..]))
  {
    FirstOf(b, at);
  }

  /** A string in a buffer by its first character. */
  lemma {:induction false} FirstOf(b: Bytes, at: nat)
    requires at < |b|
    ensures Terminated(b[at..]) == if b[at] == NUL then [] else [b[at]] + Terminated(b[at + 1..])
  {
    assert b[at..][0] == b[at] && b[at..][1..] == b[at + 1..];
  }

  /** Skipping blanks stops behind one, or at the end, or skips nothing. */
  lemma {:induction false} BlankBefore(b: Bytes, end: nat, at: nat)
    requires end <= at < |b| && (b[end] == NUL || IsBlank(b[end]))
    requires Terminated(b[at..]) == SkipBlanks(Terminated(b[end..]))
    requires at + |Terminated(b[at..])| == end + |Terminated(b[end..])|
    ensures !IsBlank(b[at]) && (b[at] == NUL || (end < at && IsBlank(b[at - 1])))
    decreases at - end
  {
    FirstOf(b, end);
    FirstOf(b, at);
    if b[end] != NUL {
      assert Terminated(b[end..])[1..] == Terminated(b[end + 1..]);
      assert end < at;
      if b[end + 1] == NUL || IsBlank(b[end + 1]) {
        BlankBefore(b, end + 1, at);
      } else {
        FirstOf(b, end + 1);
      }
    }
  }

  /** What trimming leaves of the string behind the options, and of the commands behind this one. */
  lemma {:induction false} Trimmed(b: Bytes, low: nat, at: nat, start: nat, cut: Option<nat>, after: Bytes, len: nat)
    requires StartsAt(b, low, at) && at <= start < len <= |b|
    requires start + |Terminated(b[start..])| == at + |Terminated(b[at..])|
    requires Terminated(b[start..]) == SkipBlanks(Terminated(b[at..]))
    requires match cut
             case None => after == b && SkipBlanks(Terminated(b[at..])) == []
             case Some(c) =>
               c < len && c <= start + |Terminated(b[start..])| && after == b[c := NUL] && CutsAfter(b, start, c)
    ensures |after| == |b| && after[len..] == b[len..]
    ensures Terminated(after[start..]) == TrimOrAll(Terminated(b[at..]))
  {
    var t := Terminated(b[at..]);
    FirstOf(b, at);
    assert SkipBlanks(t) == t && start == at;
    if cut.Some? {
      CutInside(b, cut.value, len);
      TrimmedAt(b, low, at, cut.value);
    }
  }

  lemma {:induction false} TrimmedAt(b: Bytes, low: nat, at: nat, c: nat)
    requires StartsAt(b, low, at) && c < |b| && c <= at + |Terminated(b[at..])| && CutsAfter(b, at, c)
    ensures Terminated(b[c := NUL][at..]) == TrimOrAll(Terminated(b[at..]))
  {
    if RightTrim(Terminated(b[at..])) != [] {
      TrimSays(b, at, c);
    } else if low < at {
      FirstOf(b, at);
      TrimSpares(b, at, c);
    } else {
      StartsSolid(b, at);
    }
  }

  lemma {:induction false} SolidBefore(b: Bytes, low: nat, at: nat)
    requires StartsAt(b, low, at)
    ensures HasStop(b, at, low)
  {
    if low == at { StartsSolid(b, at); }
  }

  /** Two buffers that agree up to a NUL say the same. */
  lemma {:induction false} SameStart(b: Bytes, s: Bytes)
    requires |s| < |b| && b[..|s|] == s && b[|s|] == NUL
    ensures Terminated(b) == Terminated(s) && |Terminated(b)| <= |s|
  {
    var t := Terminated(s);
    assert b[..|t|] == s[..|t|];
    TerminatedAt(b, |t|);
  }

  /** The string that starts inside another one is its tail. */
  lemma {:induction false} TailSays(b: Bytes, n: nat, from: nat)
    requires from <= n < |b| && n == |Terminated(b)|
    ensures Terminated(b[from..]) == Terminated(b)[from..]
  {
    assert b[from..][..n - from] == Terminated(b)[from..];
    TerminatedAt(b[from..], n - from);
  }
}
