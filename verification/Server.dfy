/** core.c, auth.c, ls.c and command.c as one session: which commands get through, what they do to
    login, directory, data socket and restart position, and what they hand to the outside. */
module Server {
  import opened CStrings
  import opened Paths
  import opened CommandPool
  import Framer

  // ---- The command table ----------------------------------------------------------

  ghost predicate IsTable(table: seq<Entry>) { forall e | e in table :: e == Row(e.handler) }

  /** The row of the table for each handler: name, needs_login, needs_data, needs_arg. */
  function Row(h: Handler): Entry
  {
    match h
    case Abor => Entry("ABOR", h, true, false, false)
    case Acct => Entry("ACCT", h, true, false, false)
    case Allo => Entry("ALLO", h, true, false, false)
    case Cdup => Entry("CDUP", h, true, false, false)
    case Clnt => Entry("CLNT", h, true, false, false)
    case Cwd => Entry("CWD", h, true, false, true)
    case Feat => Entry("FEAT", h, false, false, false)
    case List => Entry("LIST", h, true, true, false)
    case Mdtm => Entry("MDTM", h, true, false, true)
    case Mkd => Entry("MKD", h, true, false, true)
    case Noop => Entry("NOOP", h, false, false, false)
    case Opts => Entry("OPTS", h, false, false, false)
    case Pass => Entry("PASS", h, false, false, false)
    case Pasv => Entry("PASV", h, true, false, false)
    case Pwd => Entry("PWD", h, true, false, false)
    case Quit => Entry("QUIT", h, false, false, false)
    case Rest => Entry("REST", h, true, false, true)
    case Dele => Entry("DELE", h, true, false, true)
    case Retr => Entry("RETR", h, true, true, true)
    case Rmd => Entry("RMD", h, true, false, true)
    case Size => Entry("SIZE", h, true, false, true)
    case Syst => Entry("SYST", h, false, false, false)
    case Type => Entry("TYPE", h, true, false, true)
    case User => Entry("USER", h, false, false, false)
    case Stor => Entry("STOR", h, true, true, true)
  }

  const ORDER: seq<Handler> := [
    Abor, Acct, Allo, Cdup, Clnt, Cwd, Feat, List, Mdtm, Mkd, Noop, Opts, Pass,
    Pasv, Pwd, Quit, Rest, Dele, Retr, Rmd, Size, Syst, Type, User, Stor]

  /** A table built from rows, in any order. */
  function Rows(hs: seq<Handler>): (table: seq<Entry>)
    ensures IsTable(table)
  {
    if hs == [] then [] else [Row(hs[0])] + Rows(hs[1..])
  }

  /** core_command_list */
  function CoreCommands(): seq<Entry> { Rows(ORDER) }

  /** The handlers of the table that reach the file system or the data socket, or report to the
      daemon, all need a login, and those that accept a connection need the passive socket. */
  predicate WellGated(e: Entry)
  {
    && (e.handler !in {Feat, Noop, Opts, Pass, Quit, Syst, User} ==> e.needs_login)
    && (e.handler in {List, Retr, Stor} ==> e.needs_data)
  }

  lemma {:induction false} RowIsGated(h: Handler)
    ensures WellGated(Row(h))
  {}

  // ---- The names of the table are distinct ----------------------------------------

  /** The first four letters of a name as one number, ignoring case. */
  function Code(s: CString): int
  {
    Letter(s, 0) + 256 * (Letter(s, 1) + 256 * (Letter(s, 2) + 256 * Letter(s, 3)))
  }

  function ByCode(n: int): Option<Handler>
  {
    if n == 0x726f6261 then Some(Abor)
    else if n == 0x74636361 then Some(Acct)
    else if n == 0x6f6c6c61 then Some(Allo)
    else if n == 0x70756463 then Some(Cdup)
    else if n == 0x746e6c63 then Some(Clnt)
    else if n == 0x647763 then Some(Cwd)
    else if n == 0x74616566 then Some(Feat)
    else if n == 0x7473696c then Some(List)
    else if n == 0x6d74646d then Some(Mdtm)
    else if n == 0x646b6d then Some(Mkd)
    else if n == 0x706f6f6e then Some(Noop)
    else if n == 0x7374706f then Some(Opts)
    else if n == 0x73736170 then Some(Pass)
    else if n == 0x76736170 then Some(Pasv)
    else if n == 0x647770 then Some(Pwd)
    else if n == 0x74697571 then Some(Quit)
    else if n == 0x74736572 then Some(Rest)
    else if n == 0x656c6564 then Some(Dele)
    else if n == 0x72746572 then Some(Retr)
    else if n == 0x646d72 then Some(Rmd)
    else if n == 0x657a6973 then Some(Size)
    else if n == 0x74737973 then Some(Syst)
    else if n == 0x65707974 then Some(Type)
    else if n == 0x72657375 then Some(User)
    else if n == 0x726f7473 then Some(Stor)
    else None
  }

  lemma {:induction false} CodeTells(h: Handler)
    ensures ByCode(Code(Row(h).name)) == Some(h)
  {}

  lemma {:induction false} SameCode(a: CString, b: CString)
    requires Compare(a, b) == 0
    ensures Code(a) == Code(b)
  {
    SameLetters(a, b, 0);
    SameLetters(a, b, 1);
    SameLetters(a, b, 2);
    SameLetters(a, b, 3);
  }

  /** Two rows with the same name, ignoring case, are one. */
  lemma {:induction false} NamesDiffer(h: Handler, k: Handler)
    requires Compare(Row(h).name, Row(k).name) == 0
    ensures h == k
  {
    SameCode(Row(h).name, Row(k).name);
    CodeTells(h);
    CodeTells(k);
  }

  lemma {:induction false} RowsHold(hs: seq<Handler>, h: Handler)
    ensures Row(h) in Rows(hs) <==> h in hs
  {
    if hs != [] {
      RowsHold(hs[1..], h);
      assert Row(h).handler == h && Row(hs[0]).handler == hs[0];
    }
  }

  /** No two names of a table of rows are the same, ignoring case, so a lookup does not depend on the
      order of the table, and finds the row of any handler that is in it, in upper or lower case. */
  lemma {:induction false} TableIsUnambiguous(table: seq<Entry>, h: Handler, key: CString)
    requires IsTable(table) && Compare(key, Row(h).name) == 0
    ensures Unambiguous(table)
    ensures Lookup(table, key) == if Row(h) in table then Some(Row(h)) else None
  {
    forall d, e | d in table && e in table && Compare(d.name, e.name) == 0 ensures d == e {
      NamesDiffer(d.handler, e.handler);
    }
    var r := Lookup(table, key);
    if r.Some? {
      SameName(Row(h), r.value, key);
      NamesDiffer(h, r.value.handler);
    }
  }

  lemma {:induction false} InOrder(h: Handler)
    ensures h in ORDER
  {
    assert ORDER[0] == Abor;
  }

  /** Every handler is found under its own name, in upper or lower case, in the table of the program,
      however it is sorted. */
  lemma {:induction false} CoreTableFinds(sorted: seq<Entry>, h: Handler, key: CString)
    requires multiset(sorted) == multiset(CoreCommands()) && Compare(key, Row(h).name) == 0
    ensures Unambiguous(CoreCommands()) && Lookup(sorted, key) == Some(Row(h))
  {
    InOrder(h);
    RowsHold(ORDER, h);
    TableIsUnambiguous(CoreCommands(), h, key);
    LookupIgnoresOrder(CoreCommands(), sorted, key);
  }

  // ---- State ----------------------------------------------------------------------

  /** The command table, config, and the password check of login_user: the home directory of an accepted login. */
  datatype Setup = Setup(
    table: seq<Entry>, allow_anon: bool, anon_root: Option<CString>, accounts: (CString, CString) -> Option<CString>)

  ghost predicate IsSetup(setup: Setup)
  {
    && IsTable(setup.table) && (setup.anon_root.Some? ==> IsC(setup.anon_root.value))
    && forall u, p :: setup.accounts(u, p).Some? ==> IsC(setup.accounts(u, p).value)
  }

  datatype Login = Login(logged_in: bool, anonymous: bool, user: Option<CString>)

  /** What leaves the session process. */
  datatype Effect =
    | Os(path: CString)        // a path handed to the operating system
    | Moved(path: CString)     // T_CHDIR
    | Told                     // any other message to the daemon
    | Accept(listening: bool)  // accept on the passive socket

  datatype State = State(
    login: Login,
    root: Option<CString>,  // the directory vfs.c has its pool for; None before init_vfs_pool
    state_pool: bool,
    listening: bool,        // pasv_sock is not -1
    cwd: CString,
    restart_pos: nat,
    alive: bool,            // the main loop is still running
    fault: bool,            // an assertion failed or a null pointer was used
    effects: seq<Effect>)

  function Init(): State { State(Login(false, false, None), None, false, false, "/", 0, true, false, []) }

  datatype Kind = Missing | Directory | Regular | Other

  datatype Accepted = Connection | NoConnection | Ended

  /** What the system calls of one command answer. */
  datatype World = World(
    setuid_ok: bool,
    stat: Kind,
    open_ok: bool,             // opendir, open or creat
    accept: Accepted,
    socket_ok: bool,
    listen_ok: bool,
    offset: Option<nat>,       // strtoll on the argument of REST; None when out of range
    size: nat,
    entries: seq<CString>)     // the names readdir returns that are not skipped

  datatype Input = Input(verb: CString, arg: CString, world: World)

  predicate IsInput(i: Input)
  {
    IsC(i.verb) && IsC(i.arg) && forall k | 0 <= k < |i.world.entries| :: IsC(i.world.entries[k])
  }

  // ---- Handlers -------------------------------------------------------------------

  function Faulted(s: State): State { s.(fault := true) }

  function Emit(s: State, e: Effect): State { s.(effects := s.effects + [e]) }

  /** The vfs functions: assert the pool, canonicalise, call the system. None is ENAMETOOLONG. */
  function Reach(s: State, path: CString): (State, Option<CString>)
  {
    if s.root == None then (Faulted(s), None)
    else
      match Resolve(s.cwd, path)
      case None => (s, None)
      case Some(p) => (Emit(s, Os(s.root.value + p)), Some(p))
  }

  /** vfs_chdir: canonicalise and copy back, without a system call. */
  function Chdir(s: State, path: CString): State
  {
    if s.root == None then Faulted(s)
    else match Resolve(s.cwd, path) case None => s case Some(p) => s.(cwd := p)
  }

  /** send_state: asserts its pool. */
  function Send(s: State, e: Effect): State { if s.state_pool then Emit(s, e) else Faulted(s) }

  function DoUser(setup: Setup, s: State, arg: CString): State
  {
    if s.login.logged_in then s
    else if Compare(arg, "anonymous") == 0 then
      s.(login := s.login.(user := None, anonymous := s.login.anonymous || setup.allow_anon))
    else s.(login := s.login.(user := Some(arg)))
  }

  function DoPass(setup: Setup, s: State, arg: CString, w: World): State
  {
    if s.login.logged_in then s
    else if s.login.anonymous then
      // init_vfs_pool takes the length of the directory name, null or not
      if setup.anon_root == None then Faulted(s)
      else s.(root := setup.anon_root, state_pool := true, login := s.login.(logged_in := true))
    else if s.login.user == None then s
    else Account(setup, s, s.login.user.value, arg, w)
  }

  /** login_user, which sets up the pools, and setuid. */
  function Account(setup: Setup, s: State, user: CString, password: CString, w: World): State
  {
    match setup.accounts(user, password)
    case None => s.(alive := false)
    case Some(home) =>
      var t := s.(root := Some(home), state_pool := true);
      if !w.setuid_ok then t.(alive := false)
      else Send(t, Told).(login := s.login.(logged_in := true))
  }

  /** docwd: vfs_stat, then vfs_chdir to the same place; docdup is docwd with "..". */
  function DoCwd(s: State, arg: CString, w: World): State
  {
    var (t, p) := Reach(s, arg);
    if p == None || w.stat != Directory then t
    else Send(t.(cwd := p.value), Moved(p.value))
  }

  /** accept_data_conn */
  function DoAccept(s: State, w: World): State
  {
    var t := Emit(s, Accept(s.listening));
    if w.accept.Ended? then t.(alive := false) else t
  }

  /** The readdir loop of list_directory. */
  function ListEntries(s: State, entries: seq<CString>): State
    decreases |entries|
  {
    if entries == [] then s else ListEntries(Reach(s, entries[0]).0, entries[1..])
  }

  /** list_directory: change directory, list, change back, unless opendir fails. */
  function ListDirectory(s: State, dirname: CString, w: World): State
  {
    var t := Chdir(s, dirname);
    var (u, q) := Reach(t, ".");
    if q == None || !w.open_ok then u
    else ListEntries(u, w.entries).(cwd := s.cwd)
  }

  /** The path of LIST: what its options leave, or the current directory. */
  function ListTarget(arg: CString): CString
  {
    var path := Framer.ListPath(arg);
    if path == [] then "." else path
  }

  function DoList(s: State, arg: CString, w: World): State
  {
    var name := ListTarget(arg);
    var (t, p) := Reach(s, name);
    if p == None || w.stat == Missing then t
    else
      var u := DoAccept(t, w);
      if !w.accept.Connection? then u
      else if w.stat == Directory then ListDirectory(u, name, w)
      else Reach(u, name).0
  }

  function DoPasv(s: State, w: World): State
  {
    if !w.socket_ok then s.(listening := false, alive := false)
    else s.(listening := w.listen_ok)
  }

  function DoRest(s: State, w: World): State
  {
    s.(restart_pos := match w.offset case None => 0 case Some(n) => n)
  }

  function BaseName(path: CString): CString
  {
    if path == [] then []
    else if '/' in path then BaseName(path[1..]) else path
  }

  function DoRetr(s: State, arg: CString, w: World): State
  {
    if |BaseName(arg)| >= FTP_MAX_NAME then s
    else
      var (t, p) := Reach(s, arg);
      if p == None || w.stat != Regular then t
      else
        var (u, _) := Reach(t, arg);
        if !w.open_ok then u
        else
          var v := DoAccept(u, w);
          if !w.accept.Connection? || s.restart_pos > w.size then v
          else Send(Send(v, Told), Told).(restart_pos := 0)
  }

  function DoStor(s: State, arg: CString, w: World): State
  {
    if |BaseName(arg)| >= FTP_MAX_NAME then s
    else
      var (t, p) := Reach(s, arg);
      if p == None || !w.open_ok then t
      else
        var v := DoAccept(t, w);
        if !w.accept.Connection? then v else Send(Send(v, Told), Told)
  }

  function Handle(setup: Setup, s: State, h: Handler, arg: CString, w: World): State
  {
    match h
    case User => DoUser(setup, s, arg)
    case Pass => DoPass(setup, s, arg, w)
    case Cwd => DoCwd(s, arg, w)
    case Cdup => DoCwd(s, "..", w)
    case List => DoList(s, arg, w)
    case Pasv => DoPasv(s, w)
    case Rest => DoRest(s, w)
    case Retr => DoRetr(s, arg, w)
    case Stor => DoStor(s, arg, w)
    case Mkd => Reach(s, arg).0
    case Rmd => Reach(s, arg).0
    case Dele => Reach(s, arg).0
    case Size => Reach(s, arg).0
    case Mdtm => Reach(s, arg).0
    case Quit => s.(alive := false)
    case _ => s
  }

  /** The handlers that resolve a path. */
  predicate UsesPath(h: Handler)
  {
    h.Cwd? || h.Cdup? || UsesData(h) || h.Mkd? || h.Rmd? || h.Dele? || h.Size? || h.Mdtm?
  }

  /** Those that accept a data connection. */
  predicate UsesData(h: Handler) { h.List? || h.Retr? || h.Stor? }

  function DataHandler(s: State, h: Handler, arg: CString, w: World): State
    requires UsesData(h)
  {
    if h.List? then DoList(s, arg, w) else if h.Retr? then DoRetr(s, arg, w) else DoStor(s, arg, w)
  }

  /** The handlers by what they need. */
  lemma {:induction false} HandleIs(setup: Setup, s: State, h: Handler, arg: CString, w: World)
    ensures Handle(setup, s, h, arg, w) ==
            if h.Cwd? then DoCwd(s, arg, w)
            else if h.Cdup? then DoCwd(s, "..", w)
            else if UsesData(h) then DataHandler(s, h, arg, w)
            else if UsesPath(h) then Reach(s, arg).0
            else if h.User? then DoUser(setup, s, arg)
            else if h.Pass? then DoPass(setup, s, arg, w)
            else if h.Pasv? then DoPasv(s, w)
            else if h.Rest? then DoRest(s, w)
            else if h.Quit? then s.(alive := false)
            else s
  {}

  lemma {:induction false} PathsNeedLogin(table: seq<Entry>, e: Entry)
    requires IsTable(table) && e in table && UsesPath(e.handler)
    ensures e.needs_login
  {
    RowIsGated(e.handler);
  }

  /** pre_command */
  predicate Gate(e: Entry, s: State, arg: CString)
  {
    && (e.needs_login ==> s.login.logged_in)
    && (e.needs_data ==> s.listening)
    && (e.needs_arg ==> arg != [])
  }

  /** do_cmd, for a session whose loop is still running. */
  function Step(setup: Setup, s: State, i: Input): State
  {
    if !s.alive || s.fault then s
    else
      match Lookup(setup.table, i.verb)
      case None => s
      case Some(e) => if Gate(e, s, i.arg) then Handle(setup, s, e.handler, i.arg, i.world) else s
  }

  function Answer(setup: Setup, s: State, e: Option<Entry>, i: Input): State
  {
    if e.Some? && Gate(e.value, s, i.arg) then Handle(setup, s, e.value.handler, i.arg, i.world) else s
  }

  lemma {:induction false} StepIs(setup: Setup, s: State, i: Input)
    requires s.alive && !s.fault
    ensures Step(setup, s, i) == Answer(setup, s, Lookup(setup.table, i.verb), i)
  {}

  function Run(setup: Setup, inputs: seq<Input>): State
    decreases |inputs|
  {
    if inputs == [] then Init() else Step(setup, Run(setup, inputs[..|inputs| - 1]), inputs[|inputs| - 1])
  }

  // ---- What every command keeps ---------------------------------------------------

  /** A login that stands is anonymous where that is allowed, at the anonymous directory, or
      backed by the account of its user, at that user's home. */
  ghost predicate Vouched(setup: Setup, login: Login, root: Option<CString>)
  {
    login.logged_in ==>
      && root.Some?
      && if login.anonymous then setup.allow_anon && root == setup.anon_root
         else login.user.Some? && exists pw :: setup.accounts(login.user.value, pw) == root
  }

  /** Effects that can only come from a session logged in at `root`: paths below it in canonical
      form, directories that fit a frame, connections accepted on a listening socket. */
  ghost predicate Proper(root: Option<CString>, e: Effect)
  {
    match e
    case Os(path) => root.Some? && exists p :: Canonical(p) && path == root.value + p
    case Moved(path) => Canonical(path)
    case Told => true
    case Accept(listening) => listening
  }

  ghost predicate AllProper(root: Option<CString>, effects: seq<Effect>)
  {
    forall i | 0 <= i < |effects| :: Proper(root, effects[i])
  }

  ghost predicate Inv(setup: Setup, s: State)
  {
    && Canonical(s.cwd)
    && (s.login.logged_in ==> s.root.Some? && s.state_pool)
    && (!s.login.logged_in ==> s.effects == [])
    && (s.login.anonymous ==> setup.allow_anon)
    && Vouched(setup, s.login, s.root)
    && AllProper(s.root, s.effects)
  }

  /** The one way to fault: anonymous logins are allowed and have no directory. */
  predicate Safe(setup: Setup) { setup.allow_anon ==> setup.anon_root.Some? }

  lemma {:induction false} InitInv(setup: Setup)
    ensures Inv(setup, Init()) && !Init().fault
  {
    RenderIsCanonical([]);
  }

  /** A session whose pools are set up. */
  ghost predicate Ready(s: State)
  {
    Canonical(s.cwd) && s.root.Some? && s.state_pool && AllProper(s.root, s.effects) && !s.fault
  }

  /** What any handler behind the login gate does: it keeps identity, root and pools, only adds
      proper effects, and does not fault. */
  ghost predicate Behaves(s: State, t: State)
  {
    && Ready(t) && t.login == s.login && t.root == s.root && s.effects <= t.effects
  }

  lemma {:induction false} ReachBehaves(s: State, path: CString)
    requires Ready(s) && IsC(path)
    ensures var (t, p) := Reach(s, path);
            && Behaves(s, t) && t.cwd == s.cwd && t.listening == s.listening && p == Resolve(s.cwd, path)
            && (p.Some? ==> Canonical(p.value))
  {
    ResolveIsCanonical(s.cwd, path);
  }

  lemma {:induction false} CwdBehaves(s: State, path: CString, w: World)
    requires Ready(s) && IsC(path)
    ensures Behaves(s, DoCwd(s, path, w))
  {
    ReachBehaves(s, path);
  }

  lemma {:induction false} EntriesBehave(s: State, entries: seq<CString>)
    requires Ready(s) && forall k | 0 <= k < |entries| :: IsC(entries[k])
    ensures Behaves(s, ListEntries(s, entries)) && ListEntries(s, entries).cwd == s.cwd
    decreases |entries|
  {
    if entries != [] {
      ReachBehaves(s, entries[0]);
      EntriesBehave(Reach(s, entries[0]).0, entries[1..]);
    }
  }

  lemma {:induction false} DirectoryBehaves(s: State, name: CString, w: World)
    requires Ready(s) && IsC(name) && forall k | 0 <= k < |w.entries| :: IsC(w.entries[k])
    ensures Behaves(s, ListDirectory(s, name, w))
  {
    ResolveIsCanonical(s.cwd, name);
    var t := Chdir(s, name);
    ReachBehaves(t, ".");
    EntriesBehave(Reach(t, ".").0, w.entries);
  }

  lemma {:induction false} BehavesChain(s: State, t: State, u: State)
    requires Behaves(s, t) && Behaves(t, u)
    ensures Behaves(s, u)
  {}

  lemma {:induction false} AcceptBehaves(s: State, w: World)
    requires Ready(s) && s.listening
    ensures Behaves(s, DoAccept(s, w)) && DoAccept(s, w).cwd == s.cwd
  {}

  lemma {:induction false} ToldBehaves(s: State)
    requires Ready(s)
    ensures Behaves(s, Send(s, Told))
  {}

  lemma {:induction false} ListBehaves(s: State, arg: CString, w: World)
    requires Ready(s) && s.listening && IsC(arg) && forall k | 0 <= k < |w.entries| :: IsC(w.entries[k])
    ensures Behaves(s, DoList(s, arg, w))
  {
    var name := ListTarget(arg);
    Framer.ListPathIsC(arg);
    ReachBehaves(s, name);
    var t := Reach(s, name).0;
    AcceptBehaves(t, w);
    var u := DoAccept(t, w);
    BehavesChain(s, t, u);
    DirectoryBehaves(u, name, w);
    BehavesChain(s, u, ListDirectory(u, name, w));
    ReachBehaves(u, name);
    BehavesChain(s, u, Reach(u, name).0);
  }

  /** A transfer tells the daemon that it starts and that it stops. */
  lemma {:induction false} TransferBehaves(s: State, t: State, w: World)
    requires Behaves(s, t) && t.listening
    ensures var v := DoAccept(t, w); Behaves(s, v) && Behaves(s, Send(Send(v, Told), Told))
  {
    var v := DoAccept(t, w);
    AcceptBehaves(t, w);
    BehavesChain(s, t, v);
    ToldBehaves(v);
    BehavesChain(s, v, Send(v, Told));
    ToldBehaves(Send(v, Told));
    BehavesChain(s, Send(v, Told), Send(Send(v, Told), Told));
  }

  lemma {:induction false} RetrBehaves(s: State, arg: CString, w: World)
    requires Ready(s) && s.listening && IsC(arg)
    ensures Behaves(s, DoRetr(s, arg, w))
  {
    ReachBehaves(s, arg);
    var t := Reach(s, arg).0;
    ReachBehaves(t, arg);
    BehavesChain(s, t, Reach(t, arg).0);
    TransferBehaves(s, Reach(t, arg).0, w);
  }

  lemma {:induction false} StorBehaves(s: State, arg: CString, w: World)
    requires Ready(s) && s.listening && IsC(arg)
    ensures Behaves(s, DoStor(s, arg, w))
  {
    ReachBehaves(s, arg);
    TransferBehaves(s, Reach(s, arg).0, w);
  }

  predicate Plain(h: Handler) { h !in {Cwd, Cdup, List, Retr, Stor} }

  lemma {:induction false} PlainBehaves(setup: Setup, s: State, h: Handler, i: Input)
    requires Ready(s) && s.login.logged_in && IsInput(i) && Plain(h)
    ensures Behaves(s, Handle(setup, s, h, i.arg, i.world))
  {
    ReachBehaves(s, i.arg);
  }

  lemma {:induction false} HandlerBehaves(setup: Setup, s: State, h: Handler, i: Input)
    requires Ready(s) && s.login.logged_in && IsInput(i)
    requires h in {List, Retr, Stor} ==> s.listening
    ensures Behaves(s, Handle(setup, s, h, i.arg, i.world))
  {
    match h
    case Cwd => CwdBehaves(s, i.arg, i.world);
    case Cdup => CwdBehaves(s, "..", i.world);
    case List => ListBehaves(s, i.arg, i.world);
    case Retr => RetrBehaves(s, i.arg, i.world);
    case Stor => StorBehaves(s, i.arg, i.world);
    case _ => PlainBehaves(setup, s, h, i);
  }

  lemma {:induction false} PassKeeps(setup: Setup, s: State, i: Input)
    requires Inv(setup, s) && !s.login.logged_in && !s.fault
    ensures var t := DoPass(setup, s, i.arg, i.world);
            && Inv(setup, t) && (t.fault <==> s.login.anonymous && setup.anon_root == None)
  {
    if !s.login.anonymous && s.login.user.Some? {
      var home := setup.accounts(s.login.user.value, i.arg);
    }
  }

  /** Before the login only USER and PASS change anything but the run of the main loop. */
  lemma {:induction false} LoginHandlers(setup: Setup, s: State, h: Handler, i: Input)
    requires Inv(setup, s) && !s.login.logged_in && !s.fault && !Row(h).needs_login
    ensures var t := Handle(setup, s, h, i.arg, i.world);
            && Inv(setup, t) && (t.fault <==> h == Pass && s.login.anonymous && setup.anon_root == None)
  {
    if h == Pass { PassKeeps(setup, s, i); }
  }

  lemma {:induction false} StepKeeps(setup: Setup, s: State, i: Input)
    requires IsTable(setup.table) && Inv(setup, s) && IsInput(i)
    ensures var t := Step(setup, s, i);
            && Inv(setup, t) && s.effects <= t.effects
            && (s.login.logged_in ==> t.login == s.login && t.root == s.root && t.fault == s.fault)
            && (!s.fault && Safe(setup) ==> !t.fault)
  {
    if s.alive && !s.fault && Lookup(setup.table, i.verb).Some? {
      var e := Lookup(setup.table, i.verb).value;
      assert e == Row(e.handler);
      RowIsGated(e.handler);
      if Gate(e, s, i.arg) {
        if s.login.logged_in {
          HandlerBehaves(setup, s, e.handler, i);
        } else {
          LoginHandlers(setup, s, e.handler, i);
        }
      }
    }
  }

  // ---- What holds in every session ------------------------------------------------

  ghost predicate AllInputs(inputs: seq<Input>) { forall k | 0 <= k < |inputs| :: IsInput(inputs[k]) }

  lemma {:induction false} RunKeeps(setup: Setup, inputs: seq<Input>)
    requires IsTable(setup.table) && AllInputs(inputs)
    ensures Inv(setup, Run(setup, inputs)) && (Safe(setup) ==> !Run(setup, inputs).fault)
    decreases |inputs|
  {
    if inputs == [] {
      InitInv(setup);
    } else {
      var front := inputs[..|inputs| - 1];
      RunKeeps(setup, front);
      StepKeeps(setup, Run(setup, front), inputs[|inputs| - 1]);
    }
  }

  /** Whatever the commands: the current directory is canonical, every path that reaches the system
      is the root directory followed by a canonical path, every directory reported fits its frame,
      every accept is on a listening socket, and nothing at all gets out before a login. */
  lemma {:induction false} SessionStaysInside(setup: Setup, inputs: seq<Input>, k: nat)
    requires IsTable(setup.table) && AllInputs(inputs)
    ensures Canonical(Run(setup, inputs).cwd)
    ensures k < |Run(setup, inputs).effects| ==>
              var s := Run(setup, inputs);
              && s.login.logged_in && s.root.Some?
              && match s.effects[k]
                 case Os(path) => exists p :: Canonical(p) && path == s.root.value + p
                 case Moved(path) => Canonical(path) && |path| < FTP_MAX_PATH
                 case Told => true
                 case Accept(listening) => listening
  {
    RunKeeps(setup, inputs);
    var s := Run(setup, inputs);
    if k < |s.effects| { assert Proper(s.root, s.effects[k]); }
  }

  /** The state after a shorter run. */
  lemma {:induction false} LoginIsForGood(setup: Setup, inputs: seq<Input>, k: nat)
    requires IsTable(setup.table) && AllInputs(inputs) && k <= |inputs|
    requires Run(setup, inputs[..k]).login.logged_in
    ensures Run(setup, inputs).login == Run(setup, inputs[..k]).login
    ensures Run(setup, inputs).root == Run(setup, inputs[..k]).root
    decreases |inputs|
  {
    if k == |inputs| {
      assert inputs[..k] == inputs;
    } else {
      var front := inputs[..|inputs| - 1];
      assert front[..k] == inputs[..k];
      LoginIsForGood(setup, front, k);
      RunKeeps(setup, front);
      StepKeeps(setup, Run(setup, front), inputs[|inputs| - 1]);
    }
  }

  predicate Is(setup: Setup, i: Input, h: Handler)
  {
    Lookup(setup.table, i.verb).Some? && Lookup(setup.table, i.verb).value.handler == h
  }

  /** The argument of the last USER command, unless it named the anonymous user. */
  function LastUser(setup: Setup, inputs: seq<Input>): Option<CString>
    decreases |inputs|
  {
    if inputs == [] then None
    else
      var last := inputs[|inputs| - 1];
      if !Is(setup, last, User) then LastUser(setup, inputs[..|inputs| - 1])
      else if Compare(last.arg, "anonymous") == 0 then None else Some(last.arg)
  }

  /** What a step does that matters to the login. */
  ghost predicate LoginStep(setup: Setup, s: State, i: Input, t: State)
  {
    if s.login.logged_in || !s.alive || s.fault then t.login == s.login && t.root == s.root && (t.alive ==> s.alive) && (s.fault ==> t.fault)
    else if Is(setup, i, User) then t == DoUser(setup, s, i.arg)
    else if Is(setup, i, Pass) then t == DoPass(setup, s, i.arg, i.world)
    else t == s || t == s.(alive := false)
  }

  lemma {:induction false} EarlyStep(setup: Setup, s: State, i: Input)
    requires IsTable(setup.table) && s.alive && !s.fault && !s.login.logged_in
    ensures LoginStep(setup, s, i, Step(setup, s, i))
  {
    if Lookup(setup.table, i.verb).Some? {
      var e := Lookup(setup.table, i.verb).value;
      assert e == Row(e.handler);
      RowIsGated(e.handler);
    }
  }

  lemma {:induction false} StepIsLoginStep(setup: Setup, s: State, i: Input)
    requires IsTable(setup.table) && IsInput(i) && Inv(setup, s)
    ensures LoginStep(setup, s, i, Step(setup, s, i))
  {
    if s.alive && !s.fault && !s.login.logged_in {
      EarlyStep(setup, s, i);
    } else {
      StepKeeps(setup, s, i);
    }
  }

  ghost predicate UserNamed(s: State, user: Option<CString>)
  {
    s.alive && !s.fault && !s.login.logged_in ==> s.login.user == user
  }

  lemma {:induction false} UserNamedStep(setup: Setup, s: State, i: Input, t: State, user: Option<CString>)
    requires LoginStep(setup, s, i, t) && UserNamed(s, user)
    ensures UserNamed(t, if !Is(setup, i, User) then user
                         else if Compare(i.arg, "anonymous") == 0 then None else Some(i.arg))
  {}

  /** While nobody is logged in, the user of the session is the one named last. */
  lemma {:induction false} UserIsTheLastNamed(setup: Setup, inputs: seq<Input>)
    requires IsTable(setup.table) && AllInputs(inputs)
    ensures UserNamed(Run(setup, inputs), LastUser(setup, inputs))
    decreases |inputs|
  {
    if inputs != [] {
      var front, i := inputs[..|inputs| - 1], inputs[|inputs| - 1];
      UserIsTheLastNamed(setup, front);
      RunKeeps(setup, front);
      StepIsLoginStep(setup, Run(setup, front), i);
      UserNamedStep(setup, Run(setup, front), i, Run(setup, inputs), LastUser(setup, front));
    }
  }

  /** Some USER command named the anonymous user. */
  predicate NamedAnonymous(setup: Setup, inputs: seq<Input>)
    decreases |inputs|
  {
    inputs != [] &&
    var last := inputs[|inputs| - 1];
    ((Is(setup, last, User) && Compare(last.arg, "anonymous") == 0) || NamedAnonymous(setup, inputs[..|inputs| - 1]))
  }

  ghost predicate AnonymousNamed(setup: Setup, s: State, named: bool)
  {
    s.alive && !s.fault && !s.login.logged_in ==> (s.login.anonymous <==> setup.allow_anon && named)
  }

  lemma {:induction false} AnonymousNamedStep(setup: Setup, s: State, i: Input, t: State, named: bool)
    requires LoginStep(setup, s, i, t) && AnonymousNamed(setup, s, named)
    ensures AnonymousNamed(setup, t, named || (Is(setup, i, User) && Compare(i.arg, "anonymous") == 0))
  {}

  /** Until the login, the session stands for the anonymous user exactly when that is allowed and any
      USER command named it, whoever was named after that. */
  lemma {:induction false} AnonymousIff(setup: Setup, inputs: seq<Input>)
    requires IsTable(setup.table) && AllInputs(inputs)
    ensures AnonymousNamed(setup, Run(setup, inputs), NamedAnonymous(setup, inputs))
    decreases |inputs|
  {
    if inputs != [] {
      var front, i := inputs[..|inputs| - 1], inputs[|inputs| - 1];
      AnonymousIff(setup, front);
      RunKeeps(setup, front);
      StepIsLoginStep(setup, Run(setup, front), i);
      AnonymousNamedStep(setup, Run(setup, front), i, Run(setup, inputs), NamedAnonymous(setup, front));
    }
  }

  /** How a session came to be logged in: by one PASS command. If anonymous logins are allowed and a USER
      command before it named the anonymous user, the login is that one, at the anonymous directory,
      even when another user was named last; otherwise the account of the user named last accepted its
      argument, and the login is that user's, at that user's home. So it has stayed. */
  ghost predicate LoggedInBy(setup: Setup, inputs: seq<Input>, k: nat)
    requires k < |inputs|
  {
    !Run(setup, inputs[..k]).login.logged_in && Is(setup, inputs[k], Pass)
    && ByPass(setup, LastUser(setup, inputs[..k]), inputs[k].arg, Run(setup, inputs).login, Run(setup, inputs).root)
    && (Run(setup, inputs).login.anonymous <==> setup.allow_anon && NamedAnonymous(setup, inputs[..k]))
  }

  ghost predicate ByPass(setup: Setup, named: Option<CString>, password: CString, login: Login, root: Option<CString>)
  {
    && login.logged_in && root.Some?
    && if login.anonymous then setup.allow_anon && root == setup.anon_root
       else login.user == named && named.Some? && setup.accounts(named.value, password) == root
  }

  lemma {:induction false} PassLogsIn(setup: Setup, s: State, i: Input, t: State, named: Option<CString>)
    requires LoginStep(setup, s, i, t) && UserNamed(s, named) && !s.login.logged_in && t.login.logged_in
    requires s.login.anonymous ==> setup.allow_anon
    ensures Is(setup, i, Pass) && ByPass(setup, named, i.arg, t.login, t.root) && t.login.anonymous == s.login.anonymous
    ensures s.alive && !s.fault
  {}

  lemma {:induction false} EveryLoginIsVouchedFor(setup: Setup, inputs: seq<Input>) returns (k: nat)
    requires IsTable(setup.table) && AllInputs(inputs) && Run(setup, inputs).login.logged_in
    ensures k < |inputs| && LoggedInBy(setup, inputs, k)
    decreases |inputs|
  {
    var front, i := inputs[..|inputs| - 1], inputs[|inputs| - 1];
    var s := Run(setup, front);
    RunKeeps(setup, front);
    StepIsLoginStep(setup, s, i);
    if s.login.logged_in {
      k := EveryLoginIsVouchedFor(setup, front);
      assert front[..k] == inputs[..k];
    } else {
      k := |front|;
      assert inputs[..k] == front;
      UserIsTheLastNamed(setup, front);
      AnonymousIff(setup, front);
      PassLogsIn(setup, s, i, Run(setup, inputs), LastUser(setup, front));
    }
  }

  /** A user named after the anonymous one is not the user logged in. */
  lemma {:induction false} TheAnonymousUserStays(setup: Setup, a: Input, b: Input, c: Input)
    requires IsTable(setup.table) && setup.allow_anon && setup.anon_root.Some?
    requires IsInput(a) && Is(setup, a, User) && Compare(a.arg, "anonymous") == 0
    requires IsInput(b) && Is(setup, b, User) && Compare(b.arg, "anonymous") != 0
    requires IsInput(c) && Is(setup, c, Pass)
    ensures var s := Run(setup, [a, b, c]);
            s.login == Login(true, true, Some(b.arg)) && s.root == setup.anon_root
  {
    RunOn(setup, [], a);
    RunOn(setup, [a], b);
    RunOn(setup, [a, b], c);
    assert [] + [a] == [a] && [a] + [b] == [a, b] && [a, b] + [c] == [a, b, c];
    ThreeSteps(setup, Run(setup, [a]), Run(setup, [a, b]), Run(setup, [a, b, c]), a, b, c);
  }

  lemma {:induction false} RunOn(setup: Setup, front: seq<Input>, i: Input)
    requires IsTable(setup.table) && AllInputs(front) && IsInput(i)
    ensures Run(setup, front + [i]) == Step(setup, Run(setup, front), i)
    ensures LoginStep(setup, Run(setup, front), i, Run(setup, front + [i]))
  {
    assert (front + [i])[..|front|] == front;
    RunKeeps(setup, front);
    StepIsLoginStep(setup, Run(setup, front), i);
  }

  lemma {:induction false} ThreeSteps(setup: Setup, s1: State, s2: State, s3: State, a: Input, b: Input, c: Input)
    requires LoginStep(setup, Init(), a, s1) && LoginStep(setup, s1, b, s2) && LoginStep(setup, s2, c, s3)
    requires setup.allow_anon && setup.anon_root.Some? && Is(setup, a, User) && Compare(a.arg, "anonymous") == 0
    requires Is(setup, b, User) && Compare(b.arg, "anonymous") != 0 && Is(setup, c, Pass)
    ensures s3.login == Login(true, true, Some(b.arg)) && s3.root == setup.anon_root
  {}

  /** The assertions on the pools never fail and no null directory is used, in any session, exactly
      when anonymous logins are off or have a directory, which a non-empty configuration file that
      passed check_config guarantees. */
  lemma {:induction false} FaultsExactlyWithoutARoot(setup: Setup)
    requires IsTable(setup.table) && Row(User) in setup.table && Row(Pass) in setup.table
    ensures Safe(setup) <==> forall inputs | AllInputs(inputs) :: !Run(setup, inputs).fault
  {
    if Safe(setup) {
      forall inputs | AllInputs(inputs) ensures !Run(setup, inputs).fault { RunKeeps(setup, inputs); }
    } else {
      var a := Request(setup, User, "anonymous");
      var b := Request(setup, Pass, []);
      TwoCommandsFault(setup, a, b);
      assert AllInputs([a, b]);
    }
  }

  /** What a client sends to reach a handler of the table. */
  lemma {:induction false} Request(setup: Setup, h: Handler, arg: CString) returns (i: Input)
    requires IsTable(setup.table) && Row(h) in setup.table && IsC(arg)
    ensures IsInput(i) && Is(setup, i, h) && i.arg == arg
  {
    i := Input(Row(h).name, arg, World(true, Missing, true, Connection, true, true, None, 0, []));
    EqualToItself(Row(h).name);
    TableIsUnambiguous(setup.table, h, Row(h).name);
    RowSays(h);
  }

  lemma {:induction false} RowSays(h: Handler)
    ensures Row(h).handler == h && IsC(Row(h).name)
  {}

  lemma {:induction false} TwoCommandsFault(setup: Setup, a: Input, b: Input)
    requires IsTable(setup.table) && IsInput(a) && IsInput(b) && !Safe(setup)
    requires Is(setup, a, User) && Is(setup, b, Pass) && a.arg == "anonymous"
    ensures Run(setup, [a, b]).fault
  {
    RunTwo(setup, a, b);
    EqualToItself("anonymous");
    InitInv(setup);
    var s := Step(setup, Init(), a);
    StepIsLoginStep(setup, Init(), a);
    StepKeeps(setup, Init(), a);
    StepIsLoginStep(setup, s, b);
    AnonymousFaults(setup, Init(), a, s, b, Run(setup, [a, b]));
  }

  lemma {:induction false} AnonymousFaults(setup: Setup, s: State, a: Input, t: State, b: Input, u: State)
    requires LoginStep(setup, s, a, t) && LoginStep(setup, t, b, u) && s == Init() && !Safe(setup)
    requires Is(setup, a, User) && Is(setup, b, Pass) && Compare(a.arg, "anonymous") == 0
    ensures u.fault
  {}

  lemma {:induction false} RunTwo(setup: Setup, a: Input, b: Input)
    ensures Run(setup, [a, b]) == Step(setup, Step(setup, Init(), a), b)
  {
    assert [a, b][..1] == [a] && [a][..0] == [];
    assert Run(setup, [a]) == Step(setup, Run(setup, []), a);
  }

  lemma {:induction false} EqualToItself(a: CString)
    ensures Compare(a, a) == 0
  {
    CompareSwaps(a, a);
  }

  // ---- LIST and the current directory ---------------------------------------------

  /** LIST leaves the current directory alone exactly when opendir succeeds or the directory listed
      is the current one: a failed opendir leaves the session in the directory it was to list. */
  lemma {:induction false} ListKeepsCwdIff(s: State, name: CString, w: World)
    requires Ready(s) && IsC(name) && forall k | 0 <= k < |w.entries| :: IsC(w.entries[k])
    ensures ListDirectory(s, name, w).cwd == s.cwd <==>
            w.open_ok || Resolve(s.cwd, name) == None || Resolve(s.cwd, name) == Some(s.cwd)
  {
    ResolveIsCanonical(s.cwd, name);
    DotStays(Chdir(s, name).cwd);
  }

  /** CWD into a name and CDUP bring the session back, when both directories are there. */
  lemma {:induction false} CdupUndoesCwd(s: State, name: CString, w: World)
    requires Ready(s) && IsName(name) && w.stat == Directory && Resolve(s.cwd, name).Some?
    ensures DoCwd(DoCwd(s, name, w), "..", w).cwd == s.cwd
  {
    UpUndoesDown(s.cwd, name);
  }
}
