/** config.c: the line scanner over the mapped configuration file, one attribute a line, and the
    checks made before a configuration is accepted. */
module Config {
  import opened CStrings
  import CommandPool

  const LF: char := '\n'

  // ---- The configuration ----------------------------------------------------------

  datatype Config = Config(
    port: int, ctrl_port: int, max_clients: int, throttle_rate: int,
    pasv_port_start: int, pasv_port_end: int, idle_timeout: int,
    debug: bool, allow_anon: bool, allow_links: bool, log_to_file: bool, syslog: bool,
    anon_root_dir: Option<CString>, servername: Option<CString>, logfile: Option<CString>)

  /** load_defaults */
  function Defaults(): Config
  {
    Config(8008, 7676, -1, -1, 1025, 65535, 4000, false, true, false, false, false, None, None, None)
  }

  datatype Key =
    | AllowAnonymous | AllowSymlinks | AnonRootDir | IdleTimeout | LocalPort | LogFile | LogToFile
    | LogToSyslog | MaxClients | PasvPortEnd | PasvPortStart | ServerName | TransferRate

  datatype Type = Text | Number | Flag

  function TypeOf(k: Key): Type
  {
    match k
    case AnonRootDir => Text case LogFile => Text case ServerName => Text
    case AllowAnonymous => Flag case AllowSymlinks => Flag case LogToFile => Flag case LogToSyslog => Flag
    case _ => Number
  }

  /** config_table_t */
  datatype Row = Row(name: CString, key: Key)

  /** core_config_table */
  const CORE_CONFIG: seq<Row> := [
    Row("AllowAnonymous", AllowAnonymous), Row("AllowSymlinks", AllowSymlinks),
    Row("AnonRootDir", AnonRootDir), Row("IdleTimeout", IdleTimeout),
    Row("LocalPort", LocalPort), Row("LogFile", LogFile),
    Row("LogToFile", LogToFile), Row("LogToSyslog", LogToSyslog),
    Row("MaxClients", MaxClients), Row("PasvPortEnd", PasvPortEnd),
    Row("PasvPortStart", PasvPortStart), Row("ServerName", ServerName),
    Row("TransferRate", TransferRate)]

  function FindKey(table: seq<Row>, name: CString): Option<Key>
  {
    if table == [] then None
    else if CommandPool.Compare(table[0].name, name) == 0 then Some(table[0].key)
    else FindKey(table[1..], name)
  }

  // ---- The names of the table are distinct ----------------------------------------

  function NameOf(k: Key): CString
  {
    match k
    case AllowAnonymous => "AllowAnonymous"
    case AllowSymlinks => "AllowSymlinks"
    case AnonRootDir => "AnonRootDir"
    case IdleTimeout => "IdleTimeout"
    case LocalPort => "LocalPort"
    case LogFile => "LogFile"
    case LogToFile => "LogToFile"
    case LogToSyslog => "LogToSyslog"
    case MaxClients => "MaxClients"
    case PasvPortEnd => "PasvPortEnd"
    case PasvPortStart => "PasvPortStart"
    case ServerName => "ServerName"
    case TransferRate => "TransferRate"
  }

  /** The length and two letters of a name as one number, ignoring case. */
  function Code(s: CString): int { |s| + 64 * (CommandPool.Letter(s, 0) + 256 * CommandPool.Letter(s, 2)) }

  function ByCode(n: int): Option<Key>
  {
    if n == 1775694 then Some(AllowAnonymous)
    else if n == 1775693 then Some(AllowSymlinks)
    else if n == 1824843 then Some(AnonRootDir)
    else if n == 1776203 then Some(IdleTimeout)
    else if n == 1628937 then Some(LocalPort)
    else if n == 1694471 then Some(LogFile)
    else if n == 1694473 then Some(LogToFile)
    else if n == 1694475 then Some(LogToSyslog)
    else if n == 1973066 then Some(MaxClients)
    else if n == 1891339 then Some(PasvPortEnd)
    else if n == 1891341 then Some(PasvPortStart)
    else if n == 1875146 then Some(ServerName)
    else if n == 1596684 then Some(TransferRate)
    else None
  }

  lemma {:induction false} CodeTells(k: Key)
    ensures ByCode(Code(NameOf(k))) == Some(k)
  {}

  lemma {:induction false} SameCode(a: CString, b: CString)
    requires CommandPool.Compare(a, b) == 0
    ensures Code(a) == Code(b)
  {
    CommandPool.SameLetters(a, b, 0);
    CommandPool.SameLetters(a, b, 2);
  }

  ghost predicate IsTable(table: seq<Row>) { forall i | 0 <= i < |table| :: table[i].name == NameOf(table[i].key) }

  /** In a table of such rows every spelling of an option's name, in upper or lower case, finds that
      option, if it is there. */
  lemma {:induction false} FindsItsKey(table: seq<Row>, k: Key, name: CString)
    requires IsTable(table) && CommandPool.Compare(NameOf(k), name) == 0
    ensures FindKey(table, name) == if Row(NameOf(k), k) in table then Some(k) else None
  {
    if table != [] {
      var j := table[0].key;
      if CommandPool.Compare(table[0].name, name) == 0 {
        SameCode(NameOf(j), name);
        SameCode(NameOf(k), name);
        CodeTells(j);
        CodeTells(k);
      } else {
        FindsItsKey(table[1..], k, name);
      }
    }
  }

  /** Every option of the program is found under its own name, in upper or lower case. */
  lemma {:induction false} CoreConfigFinds(k: Key, name: CString)
    requires CommandPool.Compare(NameOf(k), name) == 0
    ensures FindKey(CORE_CONFIG, name) == Some(k)
  {
    InCoreConfig(k);
    FindsItsKey(CORE_CONFIG, k, name);
  }

  lemma {:induction false} InCoreConfig(k: Key)
    ensures IsTable(CORE_CONFIG) && Row(NameOf(k), k) in CORE_CONFIG
  {
    assert CORE_CONFIG[0].key == AllowAnonymous;
  }

  // ---- One attribute --------------------------------------------------------------

  datatype ParseError = MissingArgument | UnknownOption | OutOfRange | NotANumber

  /** strtol, as parse_attribute_int uses it. */
  datatype Numeral = Value(n: int) | BadRange | BadText

  /** What comes of a line. Astray: trim_whitespace met nothing but white space and went on in front of
      the line buffer, where it reads, and writes, what is not its own; what follows is anybody's guess. */
  datatype Parsed = Good(config: Config) | Bad(error: ParseError) | Astray

  /** trim_whitespace on a string with nothing in front of it but blanks. */
  function Trim(s: CString): (r: Option<CString>)
    ensures r.Some? && r.value != [] ==> !IsSpace(r.value[|r.value| - 1])
  {
    var t := SkipBlanks(s);
    if t != [] && RightTrim(t) == [] then None else Some(RightTrim(t))
  }

  function SetNumber(c: Config, k: Key, n: int): Config
  {
    match k
    case IdleTimeout => c.(idle_timeout := n)
    case LocalPort => c.(port := n)
    case MaxClients => c.(max_clients := n)
    case PasvPortEnd => c.(pasv_port_end := n)
    case PasvPortStart => c.(pasv_port_start := n)
    case TransferRate => c.(throttle_rate := n)
    case _ => c
  }

  function SetFlag(c: Config, k: Key, b: bool): Config
  {
    match k
    case AllowAnonymous => c.(allow_anon := b)
    case AllowSymlinks => c.(allow_links := b)
    case LogToFile => c.(log_to_file := b)
    case LogToSyslog => c.(syslog := b)
    case _ => c
  }

  function SetText(c: Config, k: Key, s: CString): Config
  {
    match k
    case AnonRootDir => c.(anon_root_dir := Some(s))
    case LogFile => c.(logfile := Some(s))
    case ServerName => c.(servername := Some(s))
    case _ => c
  }

  /** An argument as parse_attribute passes it on; its value is never trimmed past its front. */
  function Assign(strtol: CString -> Numeral, c: Config, k: Key, arg: CString): (p: Parsed)
    requires arg != [] && !IsBlank(arg[0]) && !IsSpace(arg[|arg| - 1])
    ensures !p.Astray?
  {
    match TypeOf(k)
    case Number =>
      (match strtol(arg)
       case Value(n) => if -0x8000_0000 <= n < 0x8000_0000 then Good(SetNumber(c, k, n)) else Bad(OutOfRange)
       case BadRange => Bad(OutOfRange)
       case BadText => Bad(NotANumber))
    case Flag => Good(SetFlag(c, k, arg[0] in {'1', 'y', 'Y', 't', 'T'}))
    case Text =>
      TextIsTrimmed(arg);
      Good(SetText(c, k, Trim(arg).value))
  }

  /** An attribute has something behind its equals sign. */
  predicate HasArgument(l: CString)
  {
    var i := IndexOf(l, '=');
    i < |l| && SkipBlanks(l[i + 1..]) != []
  }

  function NamePart(l: CString): CString { l[..IndexOf(l, '=')] }

  function Argument(l: CString): CString
    requires HasArgument(l)
  {
    SkipBlanks(l[IndexOf(l, '=') + 1..])
  }

  /** parse_attribute */
  function ParseAttribute(table: seq<Row>, strtol: CString -> Numeral, c: Config, line: CString): Parsed
  {
    match Trim(line) case None => Astray case Some(l) => ParseTrimmed(table, strtol, c, l)
  }

  function ParseTrimmed(table: seq<Row>, strtol: CString -> Numeral, c: Config, l: CString): Parsed
    requires l != [] ==> !IsSpace(l[|l| - 1])
  {
    if l == [] then Good(c)
    else if !HasArgument(l) then Bad(MissingArgument)
    else
      match Trim(NamePart(l))
      case None => Astray
      case Some(name) =>
        match FindKey(table, name)
        case None => Bad(UnknownOption)
        case Some(k) => ArgumentIsTrimmed(l); Assign(strtol, c, k, Argument(l))
  }

  /** The argument of a trimmed line starts behind its blanks and ends where the line ends. */
  lemma {:induction false} ArgumentIsTrimmed(l: CString)
    requires HasArgument(l) && !IsSpace(l[|l| - 1])
    ensures var a := Argument(l); a != [] && !IsBlank(a[0]) && !IsSpace(a[|a| - 1])
  {
    assert Argument(l)[|Argument(l)| - 1] == l[|l| - 1];
  }

  /** A text option never trims its argument again: it ends where its line, trimmed, ends. */
  lemma {:induction false} TextIsTrimmed(arg: CString)
    requires arg != [] && !IsBlank(arg[0]) && !IsSpace(arg[|arg| - 1])
    ensures Trim(arg) == Some(arg)
  {
    RightTrimIs(arg, |arg|);
    assert arg[..|arg|] == arg;
  }

  // ---- The file -------------------------------------------------------------------

  /** What comes of a file; the last two are reads outside the line buffer and outside the mapping. */
  datatype Outcome = Done(config: Config) | Failed(line: nat, error: ParseError) | Strayed(line: nat) | OffTheMap

  /** parse_attribute, whatever it does with one line. */
  type LineParser = (Config, CString) -> Parsed

  function Attributes(table: seq<Row>, strtol: CString -> Numeral): LineParser
  {
    (c, line) => ParseAttribute(table, strtol, c, line)
  }

  /** Empty lines and comments change nothing. */
  function ParseLine(parse: LineParser, c: Config, line: seq<char>): Parsed
  {
    if line == [] || line[0] == '#' then Good(c) else parse(c, Terminated(line))
  }

  /** The reference: the file cut at its newlines, empty lines and comments left out, each other line
      parsed into the configuration so far, up to the first bad one. Lines count from `number`. */
  function Fold(parse: LineParser, c: Config, file: seq<char>, number: nat): Outcome
    decreases |file|
  {
    var i := IndexOf(file, LF);
    match ParseLine(parse, c, file[..i])
    case Bad(error) => Failed(number, error)
    case Astray => Strayed(number)
    case Good(next) => if i == |file| then Done(next) else Fold(parse, next, file[i + 1..], number + 1)
  }

  /** The furthest byte the scanner looks at: it takes the start of one line more than there is,
      behind the last newline, or two behind a last line that has none. */
  function LastLook(file: seq<char>): nat
    requires file != []
  {
    if file[|file| - 1] == LF then |file| else |file| + 1
  }

  /** What a scan comes to in a mapping of `size` bytes. */
  function Bounded(goal: Outcome, file: seq<char>, size: nat): Outcome
  {
    if goal.Done? && file != [] && LastLook(file) >= size then OffTheMap else goal
  }

  const PAGE := 4096

  /** The size of the mapping mmap makes for a file. */
  function Mapped(length: nat): (size: nat)
    ensures size % PAGE == 0 && length <= size < length + PAGE
  {
    (length + PAGE - 1) / PAGE * PAGE
  }

  /** With whole pages mapped, the last look leaves the mapping exactly for a file that fills its last
      page, or fills it but for one byte and ends without a newline. */
  lemma {:induction false} LeavesTheMapIff(file: seq<char>)
    requires file != []
    ensures LastLook(file) >= Mapped(|file|) <==>
            |file| % PAGE == 0 || (|file| % PAGE == PAGE - 1 && file[|file| - 1] != LF)
  {
    var k := (|file| + PAGE - 1) / PAGE;
    assert Mapped(|file|) == k * PAGE;
    assert |file| == (|file| / PAGE) * PAGE + |file| % PAGE;
  }

  /** parse_config over the mapping of a file, which is at least as long as the file. A file with a bad
      line is left there; any other is read as the fold says exactly when the look behind its last line
      is still inside the mapping. */
  method ParseConfig(parse: LineParser, before: Config, buf: array<char>, length: nat)
    returns (r: Outcome)
    requires length <= buf.Length
    ensures r == Bounded(Fold(parse, before, buf[..length], 1), buf[..length], buf.Length)
  {
    ghost var file := buf[..length];
    var config := before;
    var start, end: int := 0, 0;
    var linenum := 0;
    var tmp := new char[81];
    ghost var goal := Fold(parse, before, file, 1);
    end := end - 1;
    while start < length
      invariant tmp.Length > 0 && fresh(tmp) && buf[..length] == file
      invariant Scanning(goal, parse, config, file, buf.Length, start, end, linenum)
      decreases length + 1 - end
    {
      ScanOn(goal, parse, config, file, buf.Length, start, end, linenum);
      linenum := linenum + 1;
      end := end + 1;
      start := end;
      if start >= buf.Length {
        return OffTheMap;
      }
      var parsed;
      parsed, end, tmp := ScanLine(parse, config, buf, file, start, length, tmp);
      ScanTurn(goal, parse, config, file, buf.Length, start, linenum, end, parsed);
      if parsed.Bad? {
        return Failed(linenum, parsed.error);
      }
      if parsed.Astray? {
        return Strayed(linenum);
      }
      config := parsed.config;
    }
    r := Done(config);
  }

  /** The head of the loop: where the cursors are, which line end they reached, what is left to do. */
  ghost predicate Scanning(goal: Outcome, parse: LineParser, c: Config, file: seq<char>, size: nat,
                           start: int, end: int, number: nat)
  {
    && 0 <= start <= end + 1 && (start < |file| ==> end <= |file|)
    && (0 <= end < |file| ==> file[end] == LF)
    && (start < |file| == end ==> file[|file| - 1] != LF)
    && Ahead(goal, parse, c, file, end, number)
    && (start >= |file| ==> Bounded(goal, file, size) == Done(c))
  }

  /** The same once `start` has moved to the next line. */
  ghost predicate OnLine(goal: Outcome, parse: LineParser, c: Config, file: seq<char>, start: int, number: nat)
    requires file != []
  {
    && 0 <= start <= |file| + 1 && number > 0 && Ahead(goal, parse, c, file, start - 1, number - 1)
    && (start >= |file| ==> start == LastLook(file))
  }

  lemma {:induction false} ScanOn(goal: Outcome, parse: LineParser, c: Config, file: seq<char>, size: nat,
                                  start: int, end: int, number: nat)
    requires Scanning(goal, parse, c, file, size, start, end, number) && start < |file| <= size
    ensures end <= |file| && OnLine(goal, parse, c, file, end + 1, number + 1)
    ensures end + 1 >= size ==> Bounded(goal, file, size) == OffTheMap
  {
    if end + 1 == |file| {
      FoldStep(goal, parse, c, file, end + 1, number + 1);
      assert file[end + 1..] == [];
    }
  }

  lemma {:induction false} ScanTurn(goal: Outcome, parse: LineParser, c: Config, file: seq<char>, size: nat,
                                    start: nat, number: nat, end: nat, parsed: Parsed)
    requires file != [] && OnLine(goal, parse, c, file, start, number) && start < size && |file| <= size
    requires start <= |file| ==>
               end == start + IndexOf(file[start..], LF) && parsed == ParseLine(parse, c, file[start..end])
    requires start > |file| ==> end == start && parsed == Good(c)
    ensures match parsed
            case Bad(error) => Bounded(goal, file, size) == Failed(number, error)
            case Astray => Bounded(goal, file, size) == Strayed(number)
            case Good(next) => start <= end && Scanning(goal, parse, next, file, size, start, end, number)
  {
    FoldStep(goal, parse, c, file, start, number);
    if start < |file| && end == |file| { assert file[start..][|file| - 1 - start] == file[|file| - 1]; }
    if start == |file| { assert file[start..end] == []; }
  }

  /** What is left to do once the line that ends at `end` is dealt with, its newline included. */
  ghost predicate Ahead(goal: Outcome, parse: LineParser, c: Config,
                        file: seq<char>, end: int, number: nat)
  {
    && -1 <= end
    && goal == if end < |file| then Fold(parse, c, file[end + 1..], number + 1) else Done(c)
  }

  lemma {:induction false} FoldStep(goal: Outcome, parse: LineParser, c: Config,
                 file: seq<char>, start: nat, number: nat)
    requires number > 0 && Ahead(goal, parse, c, file, start - 1, number - 1)
    ensures start <= |file| ==>
              var end := start + IndexOf(file[start..], LF);
              match ParseLine(parse, c, file[start..end])
              case Bad(error) => goal == Failed(number, error)
              case Astray => goal == Strayed(number)
              case Good(next) => Ahead(goal, parse, next, file, end, number)
    ensures start > |file| ==> Ahead(goal, parse, c, file, start, number)
  {
    if start <= |file| {
      var i := IndexOf(file[start..], LF);
      assert file[start..][..i] == file[start..start + i];
      if i < |file[start..]| { assert file[start..][i + 1..] == file[start + i + 1..]; }
    }
  }

  lemma {:induction false} SliceOfPrefix(a: seq<char>, n: nat, i: nat, j: nat)
    requires i <= j <= n <= |a|
    ensures a[..n][i..j] == a[i..j]
  {}

  /** One turn of the scan: find the end of the line and deal with what it says. */
  method ScanLine(parse: LineParser, config: Config, buf: array<char>, ghost file: seq<char>,
                  start: nat, length: nat, tmp: array<char>)
    returns (parsed: Parsed, end: nat, r: array<char>)
    requires start < buf.Length && length <= buf.Length && file == buf[..length] && tmp != buf && tmp.Length > 0
    modifies tmp
    ensures r.Length > 0 && (r == tmp || fresh(r)) && buf[..length] == file
    ensures start <= length ==>
              end == start + IndexOf(file[start..], LF) && parsed == ParseLine(parse, config, file[start..end])
    ensures start > length ==> end == start && parsed == Good(config)
  {
    r := tmp;
    var comment := buf[start] == '#';
    end := FindEnd(buf, start, length);
    if start <= length { SliceOfPrefix(buf[..], length, start, length); }
    if end == start || comment {
      return Good(config), end, r;
    }
    SliceOfPrefix(buf[..], length, start, end);
    r := CopyLine(tmp, buf, start, end);
    parsed := parse(config, Terminated(r[..]));
  }

  /** The end of the line that starts at `start`. */
  method FindEnd(buf: array<char>, start: nat, length: nat) returns (end: nat)
    requires start <= buf.Length && length <= buf.Length
    ensures start <= length ==> end == start + IndexOf(buf[start..length], LF)
    ensures start > length ==> end == start
  {
    end := start;
    while end < length && buf[end] != LF
      invariant start <= end && (end <= length || end == start)
      invariant start <= length ==> LF !in buf[start..end]
      decreases length - end
    {
      end := end + 1;
    }
    if start <= length {
      IndexIs(buf[start..length], LF, end - start);
    }
  }

  /** The line in the reused buffer, grown when it is too short, as a C string. */
  method CopyLine(tmp: array<char>, buf: array<char>, start: nat, end: nat) returns (r: array<char>)
    requires start <= end <= buf.Length && tmp != buf
    modifies tmp
    ensures r == tmp || fresh(r)
    ensures r.Length > 0 && Terminated(r[..]) == Terminated(buf[start..end])
  {
    var linelen := end - start;
    r := tmp;
    if tmp.Length <= linelen {
      r := new char[linelen + 1];
    }
    Memcpy(r, 0, buf[start..end]);
    r[linelen] := NUL;
    var t := Terminated(buf[start..end]);
    assert r[..][..linelen] == buf[start..end];
    assert r[..][..|t|] == t;
    TerminatedAt(r[..], |t|);
  }

  // ---- What is accepted -----------------------------------------------------------

  /** check_config */
  predicate Checked(c: Config)
  {
    && 0 <= c.port <= 65535 && 0 <= c.ctrl_port <= 65535
    && c.throttle_rate >= -1
    && 0 <= c.pasv_port_start <= c.pasv_port_end <= 65535
    && (c.allow_anon ==> c.anon_root_dir.Some?)
  }

  /** Undefined: the code has read outside its memory, and nothing is said of what it does then. */
  datatype Loaded = Accepted(config: Config) | Rejected | Undefined

  /** load_config on a file that could be mapped: an empty file skips every check. */
  method LoadConfig(table: seq<Row>, strtol: CString -> Numeral, buf: array<char>, length: nat)
    returns (l: Loaded)
    requires length <= buf.Length
    ensures length == 0 ==> l == Accepted(Defaults())
    ensures length > 0 ==>
              match Fold(Attributes(table, strtol), Defaults(), buf[..length], 1)
              case Done(d) =>
                l == if LastLook(buf[..length]) >= buf.Length then Undefined
                     else if Checked(d) then Accepted(d) else Rejected
              case Failed(_, _) => l == Rejected
              case _ => l == Undefined
    ensures length > 0 && l.Accepted? ==>
              && 0 <= l.config.port <= 65535 && l.config.throttle_rate >= -1
              && 0 <= l.config.pasv_port_start <= l.config.pasv_port_end <= 65535
              && (l.config.allow_anon ==> l.config.anon_root_dir.Some?)
  {
    if length == 0 {
      return Accepted(Defaults());
    }
    var r := ParseConfig(Attributes(table, strtol), Defaults(), buf, length);
    match r
    case OffTheMap => l := Undefined;
    case Strayed(_) => l := Undefined;
    case Failed(_, _) => l := Rejected;
    case Done(config) => l := if Checked(config) then Accepted(config) else Rejected;
  }

  /** The defaults an empty file leaves do not pass the checks, for want of an anonymous directory. */
  lemma {:induction false} EmptyFileIsUnchecked()
    ensures !Checked(Defaults()) && Defaults().allow_anon && Defaults().anon_root_dir == None
  {}

  // ---- Files that cannot walk off a line ------------------------------------------

  /** A line whose trimming stays inside it: nothing but blanks, or a character that is not white space. */
  predicate Solid(s: CString) { SkipBlanks(s) == [] || exists k :: 0 <= k < |s| && !IsSpace(s[k]) }

  /** trim_whitespace walks off its string exactly when that is not solid, as an empty line ending in
      a carriage return is not. */
  lemma {:induction false} TrimFailsIff(s: CString)
    ensures Trim(s) == None <==> !Solid(s)
  {
    if Trim(s) == None {
      AllSpace(s);
    } else if SkipBlanks(s) != [] {
      SomeSolid(s);
    }
  }

  lemma {:induction false} SomeSolid(s: CString)
    requires RightTrim(SkipBlanks(s)) != []
    ensures exists k :: 0 <= k < |s| && !IsSpace(s[k])
  {
    var t := SkipBlanks(s);
    var n := |RightTrim(t)| - 1;
    assert RightTrim(t)[n] == t[n] == s[|s| - |t| + n];
    assert !IsSpace(s[|s| - |t| + n]);
  }

  lemma {:induction false} AllSpace(s: CString)
    requires RightTrim(SkipBlanks(s)) == []
    ensures forall k | 0 <= k < |s| :: IsSpace(s[k])
  {
    if s != [] && IsBlank(s[0]) {
      AllSpace(s[1..]);
      assert forall k | 1 <= k < |s| :: s[k] == s[1..][k - 1];
    }
  }

  /** A line that parse_attribute trims past its front: it is not solid, or what stands before the equals
      sign of an attribute with an argument is not. */
  predicate Strays(line: CString)
  {
    !Solid(line) ||
    var l := RightTrim(SkipBlanks(line));
    HasArgument(l) && !Solid(NamePart(l))
  }

  lemma {:induction false} StraysIff(table: seq<Row>, strtol: CString -> Numeral, c: Config, line: CString)
    ensures ParseAttribute(table, strtol, c, line) == Astray <==> Strays(line)
  {
    var l := RightTrim(SkipBlanks(line));
    assert Strays(line) <==> Trim(line) == None || (HasArgument(l) && Trim(NamePart(l)) == None) by { StraysIs(line, l); }
    if Trim(line).Some? { NameStraysIff(table, strtol, c, l); }
  }

  lemma {:induction false} StraysIs(line: CString, l: CString)
    requires l == RightTrim(SkipBlanks(line))
    ensures Strays(line) <==> Trim(line) == None || (HasArgument(l) && Trim(NamePart(l)) == None)
  {
    TrimFailsIff(line);
    TrimFailsIff(NamePart(l));
  }

  lemma {:induction false} NameStraysIff(table: seq<Row>, strtol: CString -> Numeral, c: Config, l: CString)
    requires l != [] ==> !IsSpace(l[|l| - 1])
    ensures ParseTrimmed(table, strtol, c, l) == Astray <==> HasArgument(l) && Trim(NamePart(l)) == None
  {}

  // ---- Which line decides ---------------------------------------------------------

  /** The file cut at its newlines. */
  function LinesOf(file: seq<char>): seq<seq<char>>
    decreases |file|
  {
    var i := IndexOf(file, LF);
    if i == |file| then [file] else [file[..i]] + LinesOf(file[i + 1..])
  }

  datatype Kind = Fine | Wrong | Off

  function KindOf(p: Parsed): Kind { match p case Good(_) => Fine case Bad(_) => Wrong case Astray => Off }

  /** Whether a line is good does not depend on the lines before it. */
  ghost predicate Steadfast(parse: LineParser)
  {
    forall c, d, line :: KindOf(parse(c, line)) == KindOf(parse(d, line))
  }

  function LineKind(parse: LineParser, line: seq<char>): Kind { KindOf(ParseLine(parse, Defaults(), line)) }

  /** The k-th line is the first that is not fine. */
  ghost predicate StopsAt(parse: LineParser, lines: seq<seq<char>>, k: nat)
  {
    k < |lines| && LineKind(parse, lines[k]) != Fine && forall j | 0 <= j < k :: LineKind(parse, lines[j]) == Fine
  }

  /** The first line that is not fine decides, with its number; without one the file is done. */
  ghost predicate Decided(parse: LineParser, lines: seq<seq<char>>, number: nat, o: Outcome)
  {
    match o
    case Done(_) => forall j | 0 <= j < |lines| :: LineKind(parse, lines[j]) == Fine
    case Failed(n, _) => n >= number && StopsAt(parse, lines, n - number) && LineKind(parse, lines[n - number]) == Wrong
    case Strayed(n) => n >= number && StopsAt(parse, lines, n - number) && LineKind(parse, lines[n - number]) == Off
    case OffTheMap => false
  }

  lemma {:induction false} FirstBadLineDecides(parse: LineParser, c: Config, file: seq<char>, number: nat)
    requires Steadfast(parse)
    ensures Decided(parse, LinesOf(file), number, Fold(parse, c, file, number))
    decreases |file|
  {
    var i := IndexOf(file, LF);
    var line := file[..i];
    var p := ParseLine(parse, c, line);
    assert i == |file| ==> line == file;
    assert LineKind(parse, line) == KindOf(p);
    if p.Good? && i < |file| {
      var rest := file[i + 1..];
      FirstBadLineDecides(parse, p.config, rest, number + 1);
      DecidedBehind(parse, line, LinesOf(rest), number, Fold(parse, c, file, number));
    }
  }

  lemma {:induction false} DecidedBehind(parse: LineParser, line: seq<char>, lines: seq<seq<char>>, number: nat, o: Outcome)
    requires Decided(parse, lines, number + 1, o) && LineKind(parse, line) == Fine
    ensures Decided(parse, [line] + lines, number, o)
  {
    var all := [line] + lines;
    assert forall j | 0 <= j < |lines| :: all[j + 1] == lines[j];
    assert forall j | 0 < j < |all| :: all[j] == lines[j - 1];
  }

  /** Some line that is neither empty nor a comment strays, and every line before it is fine. */
  ghost predicate StrayFirst(parse: LineParser, lines: seq<seq<char>>)
  {
    exists k: nat :: StopsAt(parse, lines, k) && LineStrays(lines[k])
  }

  /** Exactly then the scan of a configuration goes astray. */
  lemma {:induction false} FileStraysIff(table: seq<Row>, strtol: CString -> Numeral, file: seq<char>)
    ensures Fold(Attributes(table, strtol), Defaults(), file, 1).Strayed? <==>
            StrayFirst(Attributes(table, strtol), LinesOf(file))
  {
    AttributesSteadfast(table, strtol);
    forall line ensures LineKind(Attributes(table, strtol), line) == Off <==> LineStrays(line) {
      LineStraysIff(table, strtol, line);
    }
    FileStrays(Attributes(table, strtol), file);
  }

  lemma {:induction false} FileStrays(parse: LineParser, file: seq<char>)
    requires Steadfast(parse) && forall line :: LineKind(parse, line) == Off <==> LineStrays(line)
    ensures Fold(parse, Defaults(), file, 1).Strayed? <==> StrayFirst(parse, LinesOf(file))
  {
    FirstBadLineDecides(parse, Defaults(), file, 1);
    StrayedIff(parse, LinesOf(file), Fold(parse, Defaults(), file, 1));
  }

  lemma {:induction false} StrayedIff(parse: LineParser, lines: seq<seq<char>>, o: Outcome)
    requires Decided(parse, lines, 1, o) && forall line :: LineKind(parse, line) == Off <==> LineStrays(line)
    ensures o.Strayed? <==> StrayFirst(parse, lines)
  {
    if o.Strayed? {
      assert StopsAt(parse, lines, o.line - 1) && LineStrays(lines[o.line - 1]);
    } else if StrayFirst(parse, lines) {
      NoStray(parse, lines, o);
    }
  }

  lemma {:induction false} NoStray(parse: LineParser, lines: seq<seq<char>>, o: Outcome)
    requires Decided(parse, lines, 1, o) && forall line :: LineKind(parse, line) == Off <==> LineStrays(line)
    requires !o.Strayed?
    ensures !StrayFirst(parse, lines)
  {
    forall k: nat | StopsAt(parse, lines, k) ensures !LineStrays(lines[k]) {
      NoStrayAt(parse, lines, o, k);
    }
  }

  lemma {:induction false} NoStrayAt(parse: LineParser, lines: seq<seq<char>>, o: Outcome, k: nat)
    requires Decided(parse, lines, 1, o) && StopsAt(parse, lines, k) && !o.Strayed?
    ensures LineKind(parse, lines[k]) != Off
  {
    if o.Failed? { OneStop(parse, lines, k, o.line - 1); }
  }

  lemma {:induction false} OneStop(parse: LineParser, lines: seq<seq<char>>, j: nat, k: nat)
    requires StopsAt(parse, lines, j) && StopsAt(parse, lines, k)
    ensures j == k
  {}

  lemma {:induction false} AttributesSteadfast(table: seq<Row>, strtol: CString -> Numeral)
    ensures Steadfast(Attributes(table, strtol))
  {
    forall c, d, line
      ensures KindOf(ParseAttribute(table, strtol, c, line)) == KindOf(ParseAttribute(table, strtol, d, line))
    {
      SameKind(table, strtol, c, d, line);
    }
  }

  predicate LineStrays(line: seq<char>) { line != [] && line[0] != '#' && Strays(Terminated(line)) }

  lemma {:induction false} LineStraysIff(table: seq<Row>, strtol: CString -> Numeral, line: seq<char>)
    ensures LineKind(Attributes(table, strtol), line) == Off <==> LineStrays(line)
  {
    StraysIff(table, strtol, Defaults(), Terminated(line));
  }

  lemma {:induction false} SameKind(table: seq<Row>, strtol: CString -> Numeral, c: Config, d: Config, line: CString)
    ensures KindOf(ParseAttribute(table, strtol, c, line)) == KindOf(ParseAttribute(table, strtol, d, line))
  {
    if Trim(line).Some? { SameKindTrimmed(table, strtol, c, d, Trim(line).value); }
  }

  lemma {:induction false} SameKindTrimmed(table: seq<Row>, strtol: CString -> Numeral, c: Config, d: Config, l: CString)
    requires l != [] ==> !IsSpace(l[|l| - 1])
    ensures KindOf(ParseTrimmed(table, strtol, c, l)) == KindOf(ParseTrimmed(table, strtol, d, l))
  {
    if l != [] && HasArgument(l) && Trim(NamePart(l)).Some? {
      var k := FindKey(table, Trim(NamePart(l)).value);
      if k.Some? {
        ArgumentIsTrimmed(l);
        SameAssign(strtol, c, d, k.value, Argument(l));
      }
    }
  }

  lemma {:induction false} SameAssign(strtol: CString -> Numeral, c: Config, d: Config, k: Key, arg: CString)
    requires arg != [] && !IsBlank(arg[0]) && !IsSpace(arg[|arg| - 1])
    ensures KindOf(Assign(strtol, c, k, arg)) == KindOf(Assign(strtol, d, k, arg))
  {}

  // ---- What an option sets --------------------------------------------------------

  /** The white space around the parts of an attribute. */
  datatype Layout = Layout(lead: CString, before: CString, behind: CString, trail: CString)

  predicate White(w: CString) { forall i | 0 <= i < |w| :: IsSpace(w[i]) }

  predicate IsLayout(l: Layout) { Blanks(l.lead) && White(l.before) && Blanks(l.behind) && White(l.trail) }

  function Attribute(l: Layout, name: CString, arg: CString): CString { l.lead + Core(l, name, arg) + l.trail }

  function Core(l: Layout, name: CString, arg: CString): CString { name + l.before + "=" + (l.behind + arg) }

  /** A string that neither starts nor ends with white space. */
  predicate Tight(s: CString) { s != [] && !IsSpace(s[0]) && !IsSpace(s[|s| - 1]) }

  lemma {:induction false} TrimIs(lead: CString, s: CString, trail: CString)
    requires Blanks(lead) && White(trail) && Tight(s)
    ensures Trim(lead + s + trail) == Some(s)
  {
    var t := s + trail;
    assert lead + s + trail == lead + t;
    SkipBlanksIs(lead, t);
    assert forall i | |s| <= i < |t| :: t[i] == trail[i - |s|];
    RightTrimIs(t, |s|);
    assert t[..|s|] == s;
  }

  /** However it is laid out, an attribute assigns its argument to its option. */
  lemma {:induction false} AttributeAssigns(strtol: CString -> Numeral, c: Config, l: Layout, k: Key, name: CString, arg: CString)
    requires IsLayout(l) && Tight(name) && '=' !in name && CommandPool.Compare(NameOf(k), name) == 0 && Tight(arg)
    ensures ParseAttribute(CORE_CONFIG, strtol, c, Attribute(l, name, arg)) == Assign(strtol, c, k, arg)
  {
    CoreConfigFinds(k, name);
    TableAssigns(CORE_CONFIG, strtol, c, l, k, name, arg);
  }

  lemma {:induction false} TableAssigns(table: seq<Row>, strtol: CString -> Numeral, c: Config, l: Layout, k: Key,
                                        name: CString, arg: CString)
    requires IsLayout(l) && Tight(name) && '=' !in name && FindKey(table, name) == Some(k) && Tight(arg)
    ensures ParseAttribute(table, strtol, c, Attribute(l, name, arg)) == Assign(strtol, c, k, arg)
  {
    var s := AttributeTrims(l, name, arg);
    TrimmedAssigns(table, strtol, c, Attribute(l, name, arg), s, k, name, arg);
  }

  /** The parts of an attribute. */
  lemma {:induction false} AttributeTrims(l: Layout, name: CString, arg: CString) returns (s: CString)
    requires IsLayout(l) && Tight(name) && '=' !in name && Tight(arg)
    ensures Trim(Attribute(l, name, arg)) == Some(s) && s != []
    ensures HasArgument(s) && Argument(s) == arg && Trim(NamePart(s)) == Some(name)
  {
    s := Core(l, name, arg);
    assert Tight(s) by { CoreIsTight(l, name, arg); }
    assert Trim(Attribute(l, name, arg)) == Some(s) by { TrimIs(l.lead, s, l.trail); }
    assert HasArgument(s) && Argument(s) == arg && Trim(NamePart(s)) == Some(name) by {
      CutAtEquals(l, name, arg);
      NameTrims(name, l.before);
    }
  }

  lemma {:induction false} CoreIsTight(l: Layout, name: CString, arg: CString)
    requires Tight(name) && Tight(arg)
    ensures Tight(Core(l, name, arg))
  {
    var s := Core(l, name, arg);
    assert s[0] == name[0] && s[|s| - 1] == arg[|arg| - 1];
  }

  lemma {:induction false} NameTrims(name: CString, w: CString)
    requires Tight(name) && White(w)
    ensures Trim(name + w) == Some(name)
  {
    assert [] + name + w == name + w;
    TrimIs([], name, w);
  }

  lemma {:induction false} TrimmedAssigns(table: seq<Row>, strtol: CString -> Numeral, c: Config, line: CString, s: CString,
                                          k: Key, name: CString, arg: CString)
    requires Trim(line) == Some(s) && s != [] && HasArgument(s) && Argument(s) == arg && Tight(arg)
    requires Trim(NamePart(s)) == Some(name) && FindKey(table, name) == Some(k)
    ensures ParseAttribute(table, strtol, c, line) == Assign(strtol, c, k, arg)
  {}

  lemma {:induction false} CutAtEquals(l: Layout, name: CString, arg: CString)
    requires IsLayout(l) && '=' !in name && Tight(arg)
    ensures var s := Core(l, name, arg);
            HasArgument(s) && NamePart(s) == name + l.before && Argument(s) == arg
  {
    var n := name + l.before;
    var s := Core(l, name, arg);
    assert '=' !in l.before;
    assert s[..|n|] == n && s[|n|] == '=';
    IndexIs(s, '=', |n|);
    assert s[|n| + 1..] == l.behind + arg;
    SkipBlanksIs(l.behind, arg);
  }

  lemma {:induction false} OwnName(strtol: CString -> Numeral, c: Config, l: Layout, k: Key, arg: CString)
    requires IsLayout(l) && Tight(arg)
    ensures ParseAttribute(CORE_CONFIG, strtol, c, Attribute(l, NameOf(k), arg)) == Assign(strtol, c, k, arg)
  {
    CommandPool.CompareSwaps(NameOf(k), NameOf(k));
    NamesAreTight(k);
    AttributeAssigns(strtol, c, l, k, NameOf(k), arg);
  }

  lemma {:induction false} NamesAreTight(k: Key)
    ensures Tight(NameOf(k)) && '=' !in NameOf(k)
  {}

  /** What comes of an option and its argument. */
  type Sayer = (CString, CString) -> Parsed

  function Says(table: seq<Row>, strtol: CString -> Numeral, c: Config, l: Layout): Sayer
  {
    (name, arg) => ParseAttribute(table, strtol, c, Attribute(l, name, arg))
  }

  lemma {:induction false} SaysAssigns(strtol: CString -> Numeral, c: Config, l: Layout, k: Key, arg: CString)
    requires IsLayout(l) && Tight(arg)
    ensures Says(CORE_CONFIG, strtol, c, l)(NameOf(k), arg) == Assign(strtol, c, k, arg)
  {
    OwnName(strtol, c, l, k, arg);
  }

  /** A number goes to the field of its option. */
  ghost predicate SetsNumbers(says: Sayer, c: Config, arg: CString, n: int)
  {
    && says("LocalPort", arg) == Good(c.(port := n))
    && says("MaxClients", arg) == Good(c.(max_clients := n))
    && says("TransferRate", arg) == Good(c.(throttle_rate := n))
    && says("PasvPortStart", arg) == Good(c.(pasv_port_start := n))
    && says("PasvPortEnd", arg) == Good(c.(pasv_port_end := n))
    && says("IdleTimeout", arg) == Good(c.(idle_timeout := n))
  }

  /** Each number goes to its own field, as strtol reads it. */
  lemma {:induction false} NumbersAreSet(strtol: CString -> Numeral, c: Config, l: Layout, arg: CString, n: int)
    requires IsLayout(l) && Tight(arg) && strtol(arg) == Value(n) && -2147483648 <= n <= 2147483647
    ensures SetsNumbers(Says(CORE_CONFIG, strtol, c, l), c, arg, n)
  {
    forall k: Key ensures Says(CORE_CONFIG, strtol, c, l)(NameOf(k), arg) == Assign(strtol, c, k, arg) {
      SaysAssigns(strtol, c, l, k, arg);
    }
    NumberFields(Says(CORE_CONFIG, strtol, c, l), strtol, c, arg, n);
  }

  lemma {:induction false} NumberFields(says: Sayer, strtol: CString -> Numeral, c: Config, arg: CString, n: int)
    requires Tight(arg) && strtol(arg) == Value(n) && -2147483648 <= n <= 2147483647
    requires forall k: Key :: says(NameOf(k), arg) == Assign(strtol, c, k, arg)
    ensures SetsNumbers(says, c, arg, n)
  {
    assert NameOf(LocalPort) == "LocalPort" && NameOf(MaxClients) == "MaxClients" && NameOf(TransferRate) == "TransferRate";
    assert NameOf(PasvPortStart) == "PasvPortStart" && NameOf(PasvPortEnd) == "PasvPortEnd";
    assert NameOf(IdleTimeout) == "IdleTimeout";
  }

  /** What strtol cannot read, or an int cannot hold, is an error in every numeric option. */
  lemma {:induction false} BadNumbersFail(strtol: CString -> Numeral, c: Config, l: Layout, k: Key, arg: CString)
    requires IsLayout(l) && Tight(arg) && k in {LocalPort, MaxClients, TransferRate, PasvPortStart, PasvPortEnd, IdleTimeout}
    ensures match strtol(arg)
            case BadText => Says(CORE_CONFIG, strtol, c, l)(NameOf(k), arg) == Bad(NotANumber)
            case BadRange => Says(CORE_CONFIG, strtol, c, l)(NameOf(k), arg) == Bad(OutOfRange)
            case Value(n) =>
              n < -2147483648 || n > 2147483647 ==> Says(CORE_CONFIG, strtol, c, l)(NameOf(k), arg) == Bad(OutOfRange)
  {
    SaysAssigns(strtol, c, l, k, arg);
  }

  /** A flag goes to the field of its option. */
  ghost predicate SetsFlags(says: Sayer, c: Config, arg: CString, yes: bool)
  {
    && says("AllowAnonymous", arg) == Good(c.(allow_anon := yes))
    && says("AllowSymlinks", arg) == Good(c.(allow_links := yes))
    && says("LogToFile", arg) == Good(c.(log_to_file := yes))
    && says("LogToSyslog", arg) == Good(c.(syslog := yes))
  }

  /** Each flag goes to its own field: true exactly for an argument that starts with 1, y or t. */
  lemma {:induction false} FlagsAreSet(strtol: CString -> Numeral, c: Config, l: Layout, arg: CString)
    requires IsLayout(l) && Tight(arg)
    ensures SetsFlags(Says(CORE_CONFIG, strtol, c, l), c, arg,
                      arg[0] == '1' || arg[0] == 'y' || arg[0] == 'Y' || arg[0] == 't' || arg[0] == 'T')
  {
    forall k: Key ensures Says(CORE_CONFIG, strtol, c, l)(NameOf(k), arg) == Assign(strtol, c, k, arg) {
      SaysAssigns(strtol, c, l, k, arg);
    }
    FlagFields(Says(CORE_CONFIG, strtol, c, l), strtol, c, arg);
  }

  lemma {:induction false} FlagFields(says: Sayer, strtol: CString -> Numeral, c: Config, arg: CString)
    requires Tight(arg) && forall k: Key :: says(NameOf(k), arg) == Assign(strtol, c, k, arg)
    ensures SetsFlags(says, c, arg, arg[0] == '1' || arg[0] == 'y' || arg[0] == 'Y' || arg[0] == 't' || arg[0] == 'T')
  {
    assert NameOf(AllowAnonymous) == "AllowAnonymous" && NameOf(AllowSymlinks) == "AllowSymlinks";
    assert NameOf(LogToFile) == "LogToFile" && NameOf(LogToSyslog) == "LogToSyslog";
  }

  /** A text goes to the field of its option. */
  ghost predicate SetsTexts(says: Sayer, c: Config, arg: CString)
  {
    && says("AnonRootDir", arg) == Good(c.(anon_root_dir := Some(arg)))
    && says("LogFile", arg) == Good(c.(logfile := Some(arg)))
    && says("ServerName", arg) == Good(c.(servername := Some(arg)))
  }

  /** Each text goes to its own field, to the letter. */
  lemma {:induction false} TextsAreSet(strtol: CString -> Numeral, c: Config, l: Layout, arg: CString)
    requires IsLayout(l) && Tight(arg)
    ensures SetsTexts(Says(CORE_CONFIG, strtol, c, l), c, arg)
  {
    forall k: Key ensures Says(CORE_CONFIG, strtol, c, l)(NameOf(k), arg) == Assign(strtol, c, k, arg) {
      SaysAssigns(strtol, c, l, k, arg);
    }
    TextFields(Says(CORE_CONFIG, strtol, c, l), strtol, c, arg);
  }

  lemma {:induction false} TextFields(says: Sayer, strtol: CString -> Numeral, c: Config, arg: CString)
    requires Tight(arg) && forall k: Key :: says(NameOf(k), arg) == Assign(strtol, c, k, arg)
    ensures SetsTexts(says, c, arg)
  {
    TextIsTrimmed(arg);
    assert NameOf(AnonRootDir) == "AnonRootDir" && NameOf(LogFile) == "LogFile" && NameOf(ServerName) == "ServerName";
  }

  // ---- Whole files ----------------------------------------------------------------

  /** The first line of a file is parsed into the configuration the other lines start from. */
  lemma {:induction false} LineThenRest(parse: LineParser, c: Config, line: seq<char>, rest: seq<char>, number: nat)
    requires LF !in line
    ensures Fold(parse, c, line + [LF] + rest, number) ==
            match ParseLine(parse, c, line)
            case Bad(error) => Failed(number, error)
            case Astray => Strayed(number)
            case Good(next) => Fold(parse, next, rest, number + 1)
  {
    var file := line + [LF] + rest;
    assert file[..|line|] == line && file[|line| + 1..] == rest;
    IndexIs(file, LF, |line|);
  }

  lemma {:induction false} LastLine(parse: LineParser, c: Config, line: seq<char>, number: nat)
    requires LF !in line
    ensures Fold(parse, c, line, number) ==
            match ParseLine(parse, c, line)
            case Bad(error) => Failed(number, error)
            case Astray => Strayed(number)
            case Good(next) => Done(next)
  {
    assert line[..|line|] == line;
    IndexIs(line, LF, |line|);
  }

  /** Comments and empty lines change nothing but the count of lines. */
  lemma {:induction false} CommentsChangeNothing(parse: LineParser, c: Config, line: seq<char>, rest: seq<char>, number: nat)
    requires LF !in line && (line == [] || line[0] == '#')
    ensures Fold(parse, c, line + [LF] + rest, number) == Fold(parse, c, rest, number + 1)
  {
    LineThenRest(parse, c, line, rest, number);
  }

  /** The lines of a file, put together again, are the file, and none has a newline. */
  lemma {:induction false} LinesMakeTheFile(file: seq<char>)
    ensures LinesOf(file) != [] && JoinLines(LinesOf(file)) == file
    ensures forall k | 0 <= k < |LinesOf(file)| :: LF !in LinesOf(file)[k]
    decreases |file|
  {
    var i := IndexOf(file, LF);
    if i == |file| {
      assert file[..i] == file;
    } else {
      LinesMakeTheFile(file[i + 1..]);
      assert ([file[..i]] + LinesOf(file[i + 1..]))[1..] == LinesOf(file[i + 1..]);
      assert file == file[..i] + [LF] + file[i + 1..];
    }
  }

  function JoinLines(lines: seq<seq<char>>): seq<char>
    requires lines != []
  {
    if |lines| == 1 then lines[0] else lines[0] + [LF] + JoinLines(lines[1..])
  }

  /** A file of one line, with a newline or without, gives what that line says. */
  lemma {:induction false} OneLineFile(parse: LineParser, c: Config, line: seq<char>, d: Config)
    requires line != [] && line[0] != '#' && IsC(line) && LF !in line && parse(c, line) == Good(d)
    ensures Fold(parse, c, line, 1) == Done(d) && Fold(parse, c, line + [LF], 1) == Done(d)
  {
    assert line[..|line|] == line;
    TerminatedAt(line, |line|);
    LastLine(parse, c, line, 1);
    assert line + [LF] + [] == line + [LF];
    LineThenRest(parse, c, line, [], 1);
    LastLine(parse, d, [], 2);
  }

  const PLAIN := Layout([], [], [], [])

  /** "name=arg" as a whole file. */
  lemma {:induction false} OneOptionFile(table: seq<Row>, strtol: CString -> Numeral, name: CString, arg: CString, d: Config)
    requires Tight(name) && name[0] != '#' && IsC(name) && LF !in name && IsC(arg) && LF !in arg
    requires Says(table, strtol, Defaults(), PLAIN)(name, arg) == Good(d)
    ensures Fold(Attributes(table, strtol), Defaults(), name + "=" + arg, 1) == Done(d)
  {
    var line := name + "=" + arg;
    PlainSays(table, strtol, Defaults(), name, arg);
    OneLine(Attributes(table, strtol), Defaults(), name, arg, line, d);
  }

  lemma {:induction false} PlainSays(table: seq<Row>, strtol: CString -> Numeral, c: Config, name: CString, arg: CString)
    ensures Attributes(table, strtol)(c, name + "=" + arg) == Says(table, strtol, c, PLAIN)(name, arg)
  {
    PlainAttribute(name, arg);
  }

  lemma {:induction false} OneLine(parse: LineParser, c: Config, name: CString, arg: CString, line: CString, d: Config)
    requires name != [] && name[0] != '#' && IsC(name) && LF !in name && IsC(arg) && LF !in arg
    requires line == name + "=" + arg && parse(c, line) == Good(d)
    ensures Fold(parse, c, line, 1) == Done(d)
  {
    assert line[0] == name[0];
    OneLineFile(parse, c, line, d);
  }

  lemma {:induction false} PlainAttribute(name: CString, arg: CString)
    ensures Attribute(PLAIN, name, arg) == name + "=" + arg
  {
    assert PLAIN.lead + (name + PLAIN.before + "=" + (PLAIN.behind + arg)) + PLAIN.trail == name + "=" + arg;
  }

  /** A file that only names the anonymous directory is accepted as the defaults with that directory. */
  lemma {:induction false} RootAloneIsAccepted(strtol: CString -> Numeral, arg: CString)
    requires Tight(arg) && IsC(arg) && LF !in arg
    ensures var d := Defaults().(anon_root_dir := Some(arg));
            Fold(Attributes(CORE_CONFIG, strtol), Defaults(), "AnonRootDir" + "=" + arg, 1) == Done(d) && Checked(d)
  {
    assert Says(CORE_CONFIG, strtol, Defaults(), PLAIN)("AnonRootDir", arg) == Good(Defaults().(anon_root_dir := Some(arg))) by {
      TextsAreSet(strtol, Defaults(), PLAIN, arg);
    }
    OneOptionFile(CORE_CONFIG, strtol, "AnonRootDir", arg, Defaults().(anon_root_dir := Some(arg)));
  }

  /** One that only names a port is read but not accepted: the defaults allow anonymous logins and have no
      directory for them. */
  lemma {:induction false} PortAloneIsRejected(strtol: CString -> Numeral, arg: CString, n: int)
    requires Tight(arg) && IsC(arg) && LF !in arg && strtol(arg) == Value(n) && 0 <= n <= 65535
    ensures var d := Defaults().(port := n);
            Fold(Attributes(CORE_CONFIG, strtol), Defaults(), "LocalPort" + "=" + arg, 1) == Done(d) && !Checked(d)
  {
    assert Says(CORE_CONFIG, strtol, Defaults(), PLAIN)("LocalPort", arg) == Good(Defaults().(port := n)) by {
      NumbersAreSet(strtol, Defaults(), PLAIN, arg, n);
    }
    OneOptionFile(CORE_CONFIG, strtol, "LocalPort", arg, Defaults().(port := n));
  }
}
