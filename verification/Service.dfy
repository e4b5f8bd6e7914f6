/** What a client of the session machine of module Server gets: which commands get through, and what
    each of them does, in terms of the protocol. */
module Service {
  import opened CStrings
  import opened Paths
  import opened CommandPool
  import opened Server

  // ---- Verbs ----------------------------------------------------------------------

  const VERBS: seq<(CString, Handler)> := [
    ("ABOR", Abor), ("ACCT", Acct), ("ALLO", Allo), ("CDUP", Cdup), ("CLNT", Clnt), ("CWD", Cwd),
    ("FEAT", Feat), ("LIST", List), ("MDTM", Mdtm), ("MKD", Mkd), ("NOOP", Noop), ("OPTS", Opts),
    ("PASS", Pass), ("PASV", Pasv), ("PWD", Pwd), ("QUIT", Quit), ("REST", Rest), ("DELE", Dele),
    ("RETR", Retr), ("RMD", Rmd), ("SIZE", Size), ("SYST", Syst), ("TYPE", Type), ("USER", User), ("STOR", Stor)]

  /** The command table of the program, sorted or not. */
  ghost predicate HasCore(setup: Setup) { multiset(setup.table) == multiset(CoreCommands()) }

  lemma {:induction false} CoreIsTable(setup: Setup)
    requires HasCore(setup)
    ensures IsTable(setup.table)
  {
    forall e | e in setup.table ensures e == Row(e.handler) {
      assert e in multiset(setup.table);
      assert e in CoreCommands();
    }
  }

  /** A verb in upper or lower case reaches its handler. */
  lemma {:induction false} VerbReaches(setup: Setup, i: Input, k: nat)
    requires HasCore(setup) && k < |VERBS| && Compare(i.verb, VERBS[k].0) == 0
    ensures Is(setup, i, VERBS[k].1)
  {
    VerbNames(k);
    CoreTableFinds(setup.table, VERBS[k].1, i.verb);
    RowSays(VERBS[k].1);
  }

  lemma {:induction false} VerbNames(k: nat)
    requires k < |VERBS|
    ensures Row(VERBS[k].1).name == VERBS[k].0
  {}

  // ---- The gate -------------------------------------------------------------------

  predicate NeedsNoLogin(h: Handler) { h in {Feat, Noop, Opts, Pass, Quit, Syst, User} }

  predicate NeedsData(h: Handler) { h in {List, Retr, Stor} }

  predicate NeedsArgument(h: Handler) { h in {Cwd, Mdtm, Mkd, Rest, Dele, Retr, Rmd, Size, Type, Stor} }

  /** Who is let through to a handler. */
  predicate LetThrough(s: State, h: Handler, arg: CString)
  {
    && (s.login.logged_in || NeedsNoLogin(h))
    && (s.listening || !NeedsData(h))
    && (arg != [] || !NeedsArgument(h))
  }

  lemma {:induction false} GateIs(s: State, h: Handler, arg: CString)
    ensures Gate(Row(h), s, arg) <==> LetThrough(s, h, arg)
  {}

  /** A command reaches its handler exactly when it is let through, and does nothing otherwise. */
  lemma {:induction false} WhoGetsThrough(setup: Setup, s: State, i: Input, h: Handler)
    requires IsTable(setup.table) && s.alive && !s.fault && Is(setup, i, h)
    ensures Step(setup, s, i) == if LetThrough(s, h, i.arg) then Handle(setup, s, h, i.arg, i.world) else s
  {
    StepIs(setup, s, i);
    GateIs(s, h, i.arg);
  }

  lemma {:induction false} Reached(setup: Setup, s: State, i: Input, h: Handler)
    requires IsTable(setup.table) && s.alive && !s.fault && Is(setup, i, h) && LetThrough(s, h, i.arg)
    ensures Step(setup, s, i) == Handle(setup, s, h, i.arg, i.world)
  {
    WhoGetsThrough(setup, s, i, h);
  }

  // ---- What the commands do -------------------------------------------------------

  /** A session whose commands are served, at its root. */
  ghost predicate Serving(s: State)
  {
    s.alive && !s.fault && s.login.logged_in && s.root.Some? && s.state_pool && Canonical(s.cwd)
  }

  /** The name the system knows a path by. */
  function RealName(s: State, p: CString): CString
    requires s.root.Some?
  {
    s.root.value + p
  }

  /** CWD into a directory enters it and reports it; into anything else, or nowhere, it stays. */
  lemma {:induction false} CwdEnters(setup: Setup, s: State, i: Input)
    requires IsTable(setup.table) && Serving(s) && Is(setup, i, Cwd) && i.arg != []
    ensures var t := Step(setup, s, i);
            match Resolve(s.cwd, i.arg)
            case None => t == s
            case Some(p) =>
              if i.world.stat == Directory
              then t == s.(cwd := p, effects := s.effects + [Os(RealName(s, p))] + [Moved(p)])
              else t == s.(effects := s.effects + [Os(RealName(s, p))])
  {
    Reached(setup, s, i, Cwd);
    HandleIs(setup, s, Cwd, i.arg, i.world);
  }

  /** REST sets the position, or resets it when its argument is none. */
  lemma {:induction false} RestSets(setup: Setup, s: State, i: Input)
    requires IsTable(setup.table) && Serving(s) && Is(setup, i, Rest) && i.arg != []
    ensures Step(setup, s, i) == s.(restart_pos := if i.world.offset.Some? then i.world.offset.value else 0)
  {
    Reached(setup, s, i, Rest);
    HandleIs(setup, s, Rest, i.arg, i.world);
  }

  lemma {:induction false} BaseNameIs(path: CString)
    ensures var b := BaseName(path);
            && '/' !in b && |b| <= |path| && path[|path| - |b|..] == b
            && (|b| < |path| ==> path[|path| - |b| - 1] == '/')
  {
    if path != [] && '/' in path {
      BaseNameIs(path[1..]);
      var b := BaseName(path[1..]);
      assert path[|path| - |b|..] == path[1..][|path| - 1 - |b|..];
      if |b| == |path| - 1 {
        assert path[1..] == b;
        assert path == [path[0]] + path[1..];
      } else {
        assert path[1..][|path| - 1 - |b| - 1] == path[|path| - |b| - 1];
      }
    }
  }

  /** Waiting for the client on the passive socket ends the session when a signal or an aborted connection
      says so, and only then. */
  lemma {:induction false} AcceptDecides(s: State, w: World)
    ensures DoAccept(s, w) == s.(effects := s.effects + [Accept(s.listening)], alive := s.alive && w.accept != Ended)
  {}

  /** RETR of a regular file, with a client on the data connection and a position inside the file, asks
      about the file that its path means from here, opens that file, reports start and stop, and
      resets the position. */
  lemma {:induction false} RetrServes(setup: Setup, s: State, i: Input, p: CString)
    requires IsTable(setup.table) && Serving(s) && s.listening && Is(setup, i, Retr) && i.arg != []
    requires |BaseName(i.arg)| < 256 && Resolve(s.cwd, i.arg) == Some(p)
    requires i.world.stat == Regular && i.world.open_ok && i.world.accept == Connection && s.restart_pos <= i.world.size
    ensures Step(setup, s, i) ==
            s.(restart_pos := 0,
               effects := s.effects + [Os(RealName(s, p))] + [Os(RealName(s, p))] + [Accept(true)] + [Told] + [Told])
  {
    Reached(setup, s, i, Retr);
    HandleIs(setup, s, Retr, i.arg, i.world);
  }

  /** In every other case RETR moves nothing: no transfer is reported and the position stays. */
  lemma {:induction false} RetrRefuses(setup: Setup, s: State, i: Input)
    requires IsTable(setup.table) && Serving(s) && Is(setup, i, Retr)
    requires !s.listening || i.arg == [] || |BaseName(i.arg)| >= 256 || Resolve(s.cwd, i.arg) == None
             || i.world.stat != Regular || !i.world.open_ok || i.world.accept != Connection || s.restart_pos > i.world.size
    ensures Untold(s, Step(setup, s, i))
  {
    WhoGetsThrough(setup, s, i, Retr);
    HandleIs(setup, s, Retr, i.arg, i.world);
    if LetThrough(s, Retr, i.arg) { NoTransfer(s, i.arg, i.world); }
  }

  lemma {:induction false} NoTransfer(s: State, arg: CString, w: World)
    requires Serving(s)
    requires |BaseName(arg)| >= 256 || Resolve(s.cwd, arg) == None
             || w.stat != Regular || !w.open_ok || w.accept != Connection || s.restart_pos > w.size
    ensures Untold(s, DoRetr(s, arg, w))
  {
    var (t, p) := Reach(s, arg);
    assert Untold(s, t);
    if |BaseName(arg)| < 256 && p.Some? && w.stat == Regular {
      var u := Reach(t, arg).0;
      assert Untold(s, u);
      assert Untold(s, DoAccept(u, w));
    }
  }

  /** Nothing but paths and an accept was added to the effects, and the session stays where it is. */
  ghost predicate Untold(s: State, t: State)
  {
    && t.restart_pos == s.restart_pos && t.cwd == s.cwd && s.effects <= t.effects
    && forall k | |s.effects| <= k < |t.effects| :: !t.effects[k].Told?
  }

  /** STOR creates the file that its path means from here and reports start and stop; the position stays. */
  lemma {:induction false} StorServes(setup: Setup, s: State, i: Input, p: CString)
    requires IsTable(setup.table) && Serving(s) && s.listening && Is(setup, i, Stor) && i.arg != []
    requires |BaseName(i.arg)| < 256 && Resolve(s.cwd, i.arg) == Some(p)
    requires i.world.open_ok && i.world.accept == Connection
    ensures Step(setup, s, i) ==
            s.(effects := s.effects + [Os(RealName(s, p))] + [Accept(true)] + [Told] + [Told])
  {
    Reached(setup, s, i, Stor);
    HandleIs(setup, s, Stor, i.arg, i.world);
    Stored(s, i.arg, i.world, p);
  }

  lemma {:induction false} Stored(s: State, arg: CString, w: World, p: CString)
    requires Serving(s) && s.listening && |BaseName(arg)| < 256 && Resolve(s.cwd, arg) == Some(p)
    requires w.open_ok && w.accept == Connection
    ensures DoStor(s, arg, w) == s.(effects := s.effects + [Os(RealName(s, p))] + [Accept(true)] + [Told] + [Told])
  {}

  /** PASV listens when it can; without a socket it ends the session. */
  lemma {:induction false} PasvListens(setup: Setup, s: State, i: Input)
    requires IsTable(setup.table) && Serving(s) && Is(setup, i, Pasv)
    ensures var t := Step(setup, s, i);
            && (t.listening <==> i.world.socket_ok && i.world.listen_ok) && (t.alive <==> i.world.socket_ok)
            && t == s.(listening := t.listening, alive := t.alive)
  {
    Reached(setup, s, i, Pasv);
    HandleIs(setup, s, Pasv, i.arg, i.world);
  }

  /** The commands that change a file or ask about one hand the system the name their path means. */
  lemma {:induction false} PathCommandsReach(setup: Setup, s: State, i: Input, h: Handler)
    requires IsTable(setup.table) && Serving(s) && Is(setup, i, h) && h in {Mkd, Rmd, Dele, Size, Mdtm} && i.arg != []
    ensures Step(setup, s, i) ==
            match Resolve(s.cwd, i.arg) case None => s case Some(p) => s.(effects := s.effects + [Os(RealName(s, p))])
  {
    Reached(setup, s, i, h);
    HandleIs(setup, s, h, i.arg, i.world);
  }

  /** QUIT ends the session, logged in or not; the others change nothing. */
  lemma {:induction false} QuitEnds(setup: Setup, s: State, i: Input, h: Handler)
    requires IsTable(setup.table) && s.alive && !s.fault && Is(setup, i, h)
    requires h in {Quit, Abor, Acct, Allo, Clnt, Feat, Noop, Opts, Pwd, Syst, Type}
    ensures Step(setup, s, i) == if h == Quit then s.(alive := false) else s
  {
    WhoGetsThrough(setup, s, i, h);
    HandleIs(setup, s, h, i.arg, i.world);
  }

  // ---- LIST -----------------------------------------------------------------------

  /** One question to the system for every name in a directory that can be resolved. */
  function EntryEffects(root: CString, dir: CString, names: seq<CString>): seq<Effect>
  {
    if names == [] then []
    else
      match Resolve(dir, names[0])
      case None => EntryEffects(root, dir, names[1..])
      case Some(p) => [Os(root + p)] + EntryEffects(root, dir, names[1..])
  }

  lemma {:induction false} EntriesAreListed(s: State, names: seq<CString>)
    requires s.root.Some?
    ensures ListEntries(s, names) == s.(effects := s.effects + EntryEffects(s.root.value, s.cwd, names))
    decreases |names|
  {
    var root, dir := s.root.value, s.cwd;
    if names == [] {
      assert s.effects + [] == s.effects;
    } else {
      var t := Reach(s, names[0]).0;
      var rest := EntryEffects(root, dir, names[1..]);
      EntriesAreListed(t, names[1..]);
      if Resolve(dir, names[0]).Some? {
        var e := Os(root + Resolve(dir, names[0]).value);
        assert t == s.(effects := s.effects + [e]);
        Joined(s.effects, [e], rest);
      }
    }
  }

  lemma {:induction false} Joined(a: seq<Effect>, b: seq<Effect>, c: seq<Effect>)
    ensures a + b + c == a + (b + c)
  {}

  /** LIST of a directory that can be opened looks at it, accepts the client, opens it, looks at every
      name in it, and is back where it was. */
  lemma {:induction false} ListLists(setup: Setup, s: State, i: Input, dir: CString)
    requires IsTable(setup.table) && Serving(s) && s.listening && Is(setup, i, List) && IsC(i.arg)
    requires Resolve(s.cwd, ListTarget(i.arg)) == Some(dir)
    requires i.world.stat == Directory && i.world.open_ok && i.world.accept == Connection
    ensures Step(setup, s, i) ==
            s.(effects := s.effects + [Os(RealName(s, dir))] + [Accept(true)] + [Os(RealName(s, dir))]
                          + EntryEffects(s.root.value, dir, i.world.entries))
  {
    Reached(setup, s, i, List);
    HandleIs(setup, s, List, i.arg, i.world);
    var name := ListTarget(i.arg);
    Framer.ListPathIsC(i.arg);
    ResolveIsCanonical(s.cwd, name);
    DotStays(dir);
    var u := s.(effects := s.effects + [Os(RealName(s, dir))] + [Accept(true)]);
    ListedDirectory(u, name, dir, i.world);
  }

  lemma {:induction false} ListedDirectory(s: State, name: CString, dir: CString, w: World)
    requires s.root.Some? && Resolve(s.cwd, name) == Some(dir) && Resolve(dir, ".") == Some(dir) && w.open_ok
    ensures ListDirectory(s, name, w) ==
            s.(effects := s.effects + [Os(s.root.value + dir)] + EntryEffects(s.root.value, dir, w.entries))
  {
    EntriesAreListed(s.(cwd := dir, effects := s.effects + [Os(s.root.value + dir)]), w.entries);
  }

  // ---- A login and what follows ---------------------------------------------------

  /** USER and the right password log in at the user's home and report it; CWD then enters a directory
      below that home. */
  lemma {:induction false} LoginAndEnter(setup: Setup, a: Input, b: Input, c: Input, home: CString)
    requires IsTable(setup.table) && IsInput(a) && IsInput(b) && IsInput(c)
    requires Is(setup, a, User) && Compare(a.arg, "anonymous") != 0
    requires Is(setup, b, Pass) && setup.accounts(a.arg, b.arg) == Some(home) && b.world.setuid_ok
    requires Is(setup, c, Cwd) && c.arg != [] && c.world.stat == Directory && Resolve("/", c.arg).Some?
    ensures var s := Run(setup, [a, b, c]);
            var dir := Resolve("/", c.arg).value;
            && s.login == Login(true, false, Some(a.arg)) && s.root == Some(home) && s.alive && !s.fault
            && s.cwd == dir && s.effects == [Told, Os(home + dir), Moved(dir)]
  {
    var s := Init().(login := Login(true, false, Some(a.arg)), root := Some(home), state_pool := true, effects := [Told]);
    assert Step(setup, Step(setup, Init(), a), b) == s by {
      LoggedIn(setup, Init(), a, b, home);
      assert [] + [Told] == [Told];
    }
    assert Run(setup, [a, b, c]) == Step(setup, s, c) by { RunThree(setup, a, b, c); }
    assert Serving(s) by { InitInv(setup); }
    var dir := Resolve("/", c.arg).value;
    assert Step(setup, s, c) == s.(cwd := dir, effects := [Told, Os(home + dir), Moved(dir)]) by {
      CwdEnters(setup, s, c);
      assert [Told] + [Os(home + dir)] + [Moved(dir)] == [Told, Os(home + dir), Moved(dir)];
    }
  }

  lemma {:induction false} RunThree(setup: Setup, a: Input, b: Input, c: Input)
    ensures Run(setup, [a, b, c]) == Step(setup, Step(setup, Step(setup, Init(), a), b), c)
  {
    RunTwo(setup, a, b);
    assert [a, b, c][..2] == [a, b];
  }

  lemma {:induction false} LoggedIn(setup: Setup, s: State, a: Input, b: Input, home: CString)
    requires IsTable(setup.table) && s.alive && !s.fault && !s.login.logged_in && !s.login.anonymous
    requires Is(setup, a, User) && Compare(a.arg, "anonymous") != 0
    requires Is(setup, b, Pass) && setup.accounts(a.arg, b.arg) == Some(home) && b.world.setuid_ok
    ensures Step(setup, Step(setup, s, a), b) ==
            s.(login := Login(true, false, Some(a.arg)), root := Some(home), state_pool := true, effects := s.effects + [Told])
  {
    Reached(setup, s, a, User);
    HandleIs(setup, s, User, a.arg, a.world);
    var t := Step(setup, s, a);
    Reached(setup, t, b, Pass);
    HandleIs(setup, t, Pass, b.arg, b.world);
  }

  /** A wrong password ends the session. */
  lemma {:induction false} WrongPasswordEnds(setup: Setup, s: State, i: Input)
    requires IsTable(setup.table) && s.alive && !s.fault && !s.login.logged_in && !s.login.anonymous
    requires Is(setup, i, Pass) && s.login.user.Some? && setup.accounts(s.login.user.value, i.arg) == None
    ensures Step(setup, s, i) == s.(alive := false)
  {
    Reached(setup, s, i, Pass);
    HandleIs(setup, s, Pass, i.arg, i.world);
  }
}
