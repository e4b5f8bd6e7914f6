/** state.c: the frames children write into the shared pipe and what the daemon makes of them. */
module Wire {
  import opened CStrings

  const MAX_LOGIN_NAME := 64
  const XFER_INFO_SIZE := 72
  const HEADER_SIZE := 12
  const STATE_MAGIC := 0xDEADBEEF
  const PIPE_BUF := 4096

  type Bytes = seq<char>

  datatype Kind = Login | Chdir | XferStart | Xfer | XferStop

  function Code(k: Kind): nat
  {
    match k case Login => 0 case Chdir => 1 case XferStart => 2 case Xfer => 3 case XferStop => 4
  }

  /** The state_ops table: the payload size of each message type. */
  function BufSize(k: Kind): (n: nat)
    ensures XFER_INFO_SIZE <= n + 8 && n <= FTP_MAX_PATH
  {
    match k
    case Login => MAX_LOGIN_NAME
    case Chdir => FTP_MAX_PATH
    case XferStart => FTP_MAX_NAME
    case Xfer => XFER_INFO_SIZE
    case XferStop => XFER_INFO_SIZE
  }

  /** The search through state_ops. */
  function KindOf(code: int): Option<Kind>
  {
    if code == 0 then Some(Login) else if code == 1 then Some(Chdir)
    else if code == 2 then Some(XferStart) else if code == 3 then Some(Xfer)
    else if code == 4 then Some(XferStop) else None
  }

  // ---- Frames as bytes ------------------------------------------------------------

  datatype Packet = Packet(pid: nat, kind: Kind, payload: Bytes)

  type Frame = f: Packet | |f.payload| == BufSize(f.kind) witness Packet(0, Login, Zeros(MAX_LOGIN_NAME))

  const PID_LIMIT := 0x8000_0000

  /** A 32-bit word, least significant byte first. */
  function Word(n: nat): (b: Bytes)
    requires n < 0x1_0000_0000
    ensures |b| == 4
  {
    var n1 := n / 256;
    var n2 := n1 / 256;
    [(n % 256) as char, (n1 % 256) as char, (n2 % 256) as char, (n2 / 256) as char]
  }

  function Unword(b: Bytes): nat
    requires |b| == 4
  {
    b[0] as nat + 256 * (b[1] as nat + 256 * (b[2] as nat + 256 * b[3] as nat))
  }

  lemma {:induction false} WordRoundTrip(n: nat)
    requires n < 0x1_0000_0000
    ensures Unword(Word(n)) == n
  {}

  function Encode(f: Frame): (b: Bytes)
    requires f.pid < PID_LIMIT
    ensures |b| == HEADER_SIZE + BufSize(f.kind) <= PIPE_BUF
  {
    Word(f.pid) + Word(STATE_MAGIC) + Word(Code(f.kind)) + f.payload
  }

  /** What recv_state reads off the front of the pipe: the header, checked, and its payload. */
  function Decode(pipe: Bytes): (f: Option<Frame>)
    ensures f.Some? ==> FrameSize(f.value) <= |pipe|
  {
    if |pipe| < HEADER_SIZE || Unword(pipe[4..8]) != STATE_MAGIC then None
    else
      match KindOf(Unword(pipe[8..12]))
      case None => None
      case Some(k) =>
        if |pipe| < HEADER_SIZE + BufSize(k) then None
        else Some(Packet(Unword(pipe[0..4]), k, pipe[HEADER_SIZE..HEADER_SIZE + BufSize(k)]))
  }

  function FrameSize(f: Frame): nat { HEADER_SIZE + BufSize(f.kind) }

  lemma {:induction false} DecodeEncode(f: Frame, rest: Bytes)
    requires f.pid < PID_LIMIT
    ensures Decode(Encode(f) + rest) == Some(f) && (Encode(f) + rest)[FrameSize(f)..] == rest
  {
    var p := Encode(f) + rest;
    WordRoundTrip(f.pid);
    WordRoundTrip(STATE_MAGIC);
    WordRoundTrip(Code(f.kind));
    assert p[0..4] == Word(f.pid) && p[4..8] == Word(STATE_MAGIC) && p[8..12] == Word(Code(f.kind));
    assert p[HEADER_SIZE..HEADER_SIZE + BufSize(f.kind)] == f.payload;
  }

  lemma {:induction false} DecodeLooksNoFurther(p: Bytes, q: Bytes)
    requires Decode(p).Some?
    ensures Decode(p + q) == Decode(p)
  {
    var f := Decode(p).value;
    assert (p + q)[0..4] == p[0..4] && (p + q)[4..8] == p[4..8] && (p + q)[8..12] == p[8..12];
    assert (p + q)[HEADER_SIZE..FrameSize(f)] == p[HEADER_SIZE..FrameSize(f)];
  }

  /** A pipe cut into frames by some decoder of its first frame; None when a frame is broken. */
  function Split(decode: Bytes -> Option<Frame>, pipe: Bytes): Option<seq<Frame>>
    decreases |pipe|
  {
    if pipe == [] then Some([])
    else
      match decode(pipe)
      case None => None
      case Some(f) =>
        if FrameSize(f) > |pipe| then None
        else
          match Split(decode, pipe[FrameSize(f)..])
          case None => None
          case Some(fs) => Some([f] + fs)
  }

  lemma {:induction false} SplitConcat(decode: Bytes -> Option<Frame>, p: Bytes, q: Bytes)
    requires forall a, b :: decode(a).Some? ==> decode(a + b) == decode(a)
    requires Split(decode, p).Some? && Split(decode, q).Some?
    ensures Split(decode, p + q) == Some(Split(decode, p).value + Split(decode, q).value)
    decreases |p|
  {
    var b := Split(decode, q).value;
    if p == [] {
      assert p + q == q && [] + b == b;
    } else {
      var f, rest := SplitHead(decode, p);
      SplitConcat(decode, rest, q);
      assert (p + q)[FrameSize(f)..] == rest + q;
      SplitFirst(decode, p + q, f, rest + q);
      assert [f] + (Split(decode, rest).value + b) == ([f] + Split(decode, rest).value) + b;
    }
  }

  lemma {:induction false} SplitHead(decode: Bytes -> Option<Frame>, p: Bytes) returns (f: Frame, rest: Bytes)
    requires p != [] && Split(decode, p).Some?
    ensures decode(p) == Some(f) && FrameSize(f) <= |p| && rest == p[FrameSize(f)..]
    ensures Split(decode, rest).Some? && Split(decode, p).value == [f] + Split(decode, rest).value
  {
    f := decode(p).value;
    rest := p[FrameSize(f)..];
  }

  lemma {:induction false} SplitFirst(decode: Bytes -> Option<Frame>, pipe: Bytes, f: Frame, rest: Bytes)
    requires pipe != [] && decode(pipe) == Some(f) && FrameSize(f) <= |pipe|
    requires pipe[FrameSize(f)..] == rest && Split(decode, rest).Some?
    ensures Split(decode, pipe) == Some([f] + Split(decode, rest).value)
  {}

  /** The whole pipe as frames; None when it is not a concatenation of whole frames. */
  function Frames(pipe: Bytes): Option<seq<Frame>> { Split(Decode, pipe) }

  /** An atomic write keeps the pipe a concatenation of whole frames. */
  lemma {:induction false} FramesAppend(pipe: Bytes, f: Frame)
    requires Frames(pipe).Some? && f.pid < PID_LIMIT
    ensures Frames(pipe + Encode(f)) == Some(Frames(pipe).value + [f])
  {
    FramesOfOne(f);
    forall a, b | Decode(a).Some? ensures Decode(a + b) == Decode(a) { DecodeLooksNoFurther(a, b); }
    SplitConcat(Decode, pipe, Encode(f));
  }

  lemma {:induction false} FramesOfOne(f: Frame)
    requires f.pid < PID_LIMIT
    ensures Frames(Encode(f)) == Some([f])
  {
    DecodeEncode(f, []);
    var e := Encode(f);
    assert e + [] == e && e[FrameSize(f)..] == [];
    assert Split(Decode, e[FrameSize(f)..]) == Some([]);
    assert [f] + [] == [f];
  }

  /** Reading: the first frame of a whole pipe can be decoded and leaves a whole pipe. */
  lemma {:induction false} FramesFirst(pipe: Bytes)
    requires pipe != [] && Frames(pipe).Some?
    ensures Decode(pipe).Some? && FrameSize(Decode(pipe).value) <= |pipe|
    ensures var n := FrameSize(Decode(pipe).value);
            Frames(pipe[n..]).Some? && Frames(pipe).value == [Decode(pipe).value] + Frames(pipe[n..]).value
  {}

  // ---- What a frame says ----------------------------------------------------------

  /** The fields of ftp_child_t that frames overwrite. */
  datatype Fields = Fields(login: Bytes, path: Bytes, filename: Bytes, info: Bytes, busy: bool)

  type Record = r: Fields |
      && |r.login| == MAX_LOGIN_NAME && |r.path| == FTP_MAX_PATH
      && |r.filename| == FTP_MAX_NAME && |r.info| == XFER_INFO_SIZE
    witness NewRecord()

  /** Every string field ends inside its array. */
  predicate Terminates(r: Record)
  {
    r.login[MAX_LOGIN_NAME - 1] == NUL && r.path[FTP_MAX_PATH - 1] == NUL && r.filename[FTP_MAX_NAME - 1] == NUL
  }

  function Zeros(n: nat): (z: Bytes)
    ensures |z| == n && forall i | 0 <= i < n :: z[i] == NUL
  {
    seq(n, _ => NUL)
  }

  /** new_client */
  function NewRecord(): (r: Fields)
    ensures |r.login| == MAX_LOGIN_NAME && |r.path| == FTP_MAX_PATH
    ensures |r.filename| == FTP_MAX_NAME && |r.info| == XFER_INFO_SIZE
    ensures r.login[MAX_LOGIN_NAME - 1] == NUL && r.path[FTP_MAX_PATH - 1] == NUL && r.filename[FTP_MAX_NAME - 1] == NUL
  {
    Fields(Zeros(MAX_LOGIN_NAME), Zeros(FTP_MAX_PATH), Zeros(FTP_MAX_NAME), Zeros(XFER_INFO_SIZE), false)
  }

  /** The recv functions. */
  function Receive(r: Record, k: Kind, payload: Bytes): (r': Record)
    requires |payload| == BufSize(k)
  {
    match k
    case Login => r.(login := payload)
    case Chdir => r.(path := payload)
    case XferStart => r.(filename := payload[FTP_MAX_NAME - 1 := NUL], busy := true)
    case Xfer => r.(info := payload)
    case XferStop => r.(info := payload, busy := false)
  }

  /** A record as its reader sees it: C strings instead of arrays. */
  datatype View = View(login: CString, path: CString, filename: CString, info: Bytes, busy: bool)

  function ViewOf(r: Record): View
  {
    View(Terminated(r.login), Terminated(r.path), Terminated(r.filename), r.info, r.busy)
  }

  // ---- What a child sends ---------------------------------------------------------

  /** What a session hands to send_state. */
  datatype Message =
    | Named(user: CString)
    | Moved(path: CString)
    | Started(filename: CString)
    | Progress(info: Bytes)
    | Stopped(info: Bytes)

  function KindOfMessage(m: Message): Kind
  {
    match m
    case Named(_) => Login case Moved(_) => Chdir case Started(_) => XferStart
    case Progress(_) => Xfer case Stopped(_) => XferStop
  }

  predicate IsMessage(m: Message)
  {
    match m
    case Named(user) => IsC(user)
    case Moved(path) => IsC(path)
    case Started(name) => IsC(name)
    case Progress(info) => |info| == XFER_INFO_SIZE
    case Stopped(info) => |info| == XFER_INFO_SIZE
  }

  /** state_pool after a send function has filled it; the rest keeps older messages. */
  type Pool = b: Bytes | |b| == FTP_MAX_PATH witness Zeros(FTP_MAX_PATH)

  function Fill(pool: Pool, m: Message): Pool
    requires IsMessage(m)
  {
    match m
    case Named(user) => Copied(Zeros(MAX_LOGIN_NAME) + pool[MAX_LOGIN_NAME..], user, MAX_LOGIN_NAME)
    case Moved(path) => Copied(pool, path, FTP_MAX_PATH)
    case Started(name) => Copied(pool, name, FTP_MAX_NAME)
    case Progress(info) => info + pool[XFER_INFO_SIZE..]
    case Stopped(info) => info + pool[XFER_INFO_SIZE..]
  }

  /** Whether send_state reaches its writev. */
  predicate Sendable(m: Message)
  {
    match m
    case Moved(path) => |path| < FTP_MAX_PATH
    case Started(name) => |name| <= FTP_MAX_NAME
    case _ => true
  }

  function Payload(pool: Pool, m: Message): (p: Bytes)
    requires IsMessage(m)
    ensures |p| == BufSize(KindOfMessage(m))
  {
    Fill(pool, m)[..BufSize(KindOfMessage(m))]
  }

  /** What a child has told so far, message by message, in the terms of the session that sent it.
      An empty path or file name leaves the pool as it was, so the frame repeats its contents. */
  function Tell(v: View, pool: Pool, m: Message): View
  {
    match m
    case Named(user) => v.(login := user[..Min(|user|, MAX_LOGIN_NAME - 1)])
    case Moved(path) => v.(path := if path == [] then Terminated(pool) else path)
    case Started(name) =>
      v.(busy := true, filename := if name == [] then Terminated(pool[..FTP_MAX_NAME - 1])
                                   else name[..Min(|name|, FTP_MAX_NAME - 1)])
    case Progress(info) => v.(info := info)
    case Stopped(info) => v.(info := info, busy := false)
  }

  /** A buffer whose first n bytes are a string and whose next byte is NUL says that string. */
  lemma {:induction false} SaysPrefix(b: Bytes, s: CString)
    requires IsC(s) && |s| < |b| && b[..|s|] == s && b[|s|] == NUL
    ensures Terminated(b) == s
  {
    TerminatedAt(b, |s|);
  }

  lemma {:induction false} CutField(b: Bytes, n: nat)
    requires n < |b|
    ensures Terminated(b[..n + 1][n := NUL]) == Terminated(b[..n])
  {
    var t := Terminated(b[..n]);
    var c := b[..n + 1][n := NUL];
    assert c[..|t|] == b[..n][..|t|];
    TerminatedAt(c, |t|);
  }

  /** Reading a frame does to the daemon's view exactly what telling did to the child's. */
  lemma {:induction false} ReceivingIsTold(r: Record, pool: Pool, m: Message)
    requires IsMessage(m) && Sendable(m)
    ensures ViewOf(Receive(r, KindOfMessage(m), Payload(pool, m))) == Tell(ViewOf(r), pool, m)
  {
    var p := Payload(pool, m);
    match m
    case Named(user) =>
      if user == [] {
        TerminatedAt(p, 0);
      } else {
        SaysPrefix(p, user[..Min(|user|, MAX_LOGIN_NAME - 1)]);
      }
    case Moved(path) =>
      if path == [] { assert p == pool; } else { SaysPrefix(p, path); }
    case Started(name) =>
      var f := p[FTP_MAX_NAME - 1 := NUL];
      if name == [] {
        assert p == pool[..FTP_MAX_NAME];
        CutField(pool, FTP_MAX_NAME - 1);
      } else {
        SaysPrefix(f, name[..Min(|name|, FTP_MAX_NAME - 1)]);
      }
    case Progress(info) => assert p == info;
    case Stopped(info) => assert p == info;
  }

  /** A told file name is the session's own exactly when it is short enough and not empty,
      or empty while the pool happens to say nothing. */
  lemma {:induction false} FilenameToldIff(v: View, pool: Pool, name: CString)
    requires IsC(name)
    ensures Tell(v, pool, Started(name)).filename == name <==>
            if name == [] then pool[0] == NUL else |name| < FTP_MAX_NAME
  {
    if name == [] {
      var t := Terminated(pool[..FTP_MAX_NAME - 1]);
      assert pool[..FTP_MAX_NAME - 1][0] == pool[0];
    } else if |name| < FTP_MAX_NAME {
      assert name[..|name|] == name;
    }
  }

  /** The stale case is real: an empty file name sent after a change of directory reports the directory,
      cut to the length of a name. */
  lemma {:induction false} EmptyNameRepeatsThePath(v: View, pool: Pool, path: CString)
    requires IsC(path) && 0 < |path| < FTP_MAX_PATH
    ensures Tell(v, Fill(pool, Moved(path)), Started([])).filename == path[..Min(|path|, FTP_MAX_NAME - 1)]
  {
    var b := Fill(pool, Moved(path))[..FTP_MAX_NAME - 1];
    var n := Min(|path|, FTP_MAX_NAME - 1);
    assert b[..n] == path[..n];
    TerminatedAt(b, n);
  }

  /** The last byte of the pool is never written, so a path frame is always terminated. */
  lemma {:induction false} FillKeepsLastNul(pool: Pool, m: Message)
    requires IsMessage(m) && pool[FTP_MAX_PATH - 1] == NUL
    ensures Fill(pool, m)[FTP_MAX_PATH - 1] == NUL
  {}

  /** A frame whose string payload ends inside its field (the receiver ends file names itself). */
  predicate SafeFrame(f: Frame)
  {
    f.kind in {Login, Chdir} ==> f.payload[|f.payload| - 1] == NUL
  }

  lemma {:induction false} PayloadIsSafe(pid: nat, pool: Pool, m: Message)
    requires IsMessage(m) && pool[FTP_MAX_PATH - 1] == NUL
    ensures SafeFrame(Packet(pid, KindOfMessage(m), Payload(pool, m)))
  {
    FillKeepsLastNul(pool, m);
  }

  lemma {:induction false} ReceiveTerminates(r: Record, f: Frame)
    requires Terminates(r) && SafeFrame(f)
    ensures Terminates(Receive(r, f.kind, f.payload))
  {}
}
