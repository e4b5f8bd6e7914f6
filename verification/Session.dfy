/** do_cmd and the handlers of auth.c, core.c and ls.c on the session object itself, over the path pool of
    module Vfs. Each leaves the object in the state that module Server computes. */
module Session {
  import opened CStrings
  import opened Paths
  import opened CommandPool
  import opened Server
  import Framer
  import Vfs

  class Session {
    const setup: Setup
    const commands: CommandPool.Pool
    const virt_path: array<char>
    var login: Login
    var vfs: Vfs.Pool?        // null until init_vfs_pool
    var state_pool: bool
    var listening: bool
    var restart_pos: nat
    var alive: bool
    var fault: bool           // the program has used a null pointer
    ghost var effects: seq<Effect>

    ghost function Repr(): set<object>
      reads this
    {
      {this, virt_path} + if vfs == null then {} else {vfs, vfs.buf}
    }

    ghost predicate Valid()
      reads this, Repr()
    {
      && virt_path.Length == FTP_MAX_PATH && Canonical(Cwd())
      && (vfs != null ==> vfs.buf != virt_path && vfs.Valid())
      && (login.logged_in ==> vfs != null && state_pool)
    }

    /** The command pool holds the table, sorted. */
    ghost predicate Indexed()
      reads this, commands, commands.pool
    {
      commands.Valid() && Sorted(commands.Contents()) && commands.added == setup.table
    }

    ghost function Cwd(): CString reads this, virt_path { Terminated(virt_path[..]) }

    /** The object as a state of the session machine. */
    ghost function View(): State
      reads this, Repr()
    {
      State(login, if vfs == null then None else Some(vfs.root), state_pool, listening, Cwd(), restart_pos, alive, fault, effects)
    }

    /** new_session, after the command table was added to an empty pool. */
    constructor (setup: Setup)
      ensures Valid() && fresh(Repr()) && View() == Init() && this.setup == setup && Indexed()
    {
      this.setup := setup;
      var filler := Row(Noop);
      commands := new Pool(filler);
      virt_path := new char[FTP_MAX_PATH](i => if i == 0 then '/' else NUL);
      login, vfs, state_pool, listening := Login(false, false, None), null, false, false;
      restart_pos, alive, fault, effects := 0, true, false, [];
      new;
      commands.AddCommandList(setup.table);
      assert [] + setup.table == setup.table;
      assert virt_path[..][..1] == "/";
      TerminatedAt(virt_path[..], 1);
      RenderIsCanonical([]);
    }

    method DoUser(arg: CString)
      requires Valid() && IsC(arg)
      modifies `login
      ensures Valid() && View() == Server.DoUser(setup, old(View()), arg)
    {
      if login.logged_in {
        return;
      }
      login := login.(user := None);
      if Compare(arg, "anonymous") == 0 {
        if !setup.allow_anon {
          return;
        }
        login := login.(anonymous := true);
      } else {
        login := login.(user := Some(arg));
      }
    }

    /** dopass, with login_user's side effect on the pools. */
    method DoPass(arg: CString, w: World)
      requires Valid() && IsSetup(setup)
      modifies `login, `vfs, `state_pool, `alive, `fault, `effects
      ensures Valid() && View() == Server.DoPass(setup, old(View()), arg, w) && fresh(Repr() - old(Repr()))
    {
      if login.logged_in {
        return;
      }
      if login.anonymous {
        LoginAnonymous();
        return;
      }
      if login.user == None {
        return;
      }
      LoginUser(login.user.value, arg, w);
    }

    /** The rest of dopass, for a user with an account: login_user and setuid. */
    method LoginUser(user: CString, password: CString, w: World)
      requires Valid() && IsSetup(setup) && !login.logged_in
      modifies `login, `vfs, `state_pool, `alive, `effects
      ensures Valid() && fresh(Repr() - old(Repr()))
      ensures View() == Account(setup, old(View()), user, password, w)
    {
      var home := setup.accounts(user, password);
      if home == None {
        alive := false;
        return;
      }
      InitPools(home.value);
      if !w.setuid_ok {
        alive := false;
        return;
      }
      effects := effects + [Told];
      login := login.(logged_in := true);
    }

    /** The anonymous branch of dopass. */
    method LoginAnonymous()
      requires Valid() && IsSetup(setup) && !login.logged_in
      modifies `login, `vfs, `state_pool, `fault
      ensures Valid() && fresh(Repr() - old(Repr()))
      ensures View() == if setup.anon_root == None then Faulted(old(View()))
                        else old(View()).(root := setup.anon_root, state_pool := true,
                                          login := old(View()).login.(logged_in := true))
    {
      if setup.anon_root == None {
        fault := true;
        return;
      }
      InitPools(setup.anon_root.value);
      login := login.(logged_in := true);
    }

    /** init_state_pool and init_vfs_pool */
    method InitPools(root_dir: CString)
      requires Valid() && IsC(root_dir)
      modifies `vfs, `state_pool
      ensures Valid() && vfs != null && state_pool && fresh(Repr() - old(Repr()))
      ensures View() == old(View()).(root := Some(root_dir), state_pool := true)
    {
      state_pool := true;
      vfs := new Vfs.Pool(root_dir);
    }

    /** The vfs functions: canonicalise into the pool and hand real_path to the system. */
    method Reach(path: CString) returns (ok: bool)
      requires Valid() && vfs != null && IsC(path)
      modifies vfs.buf, `effects
      ensures Valid() && View() == Server.Reach(old(View()), path).0
      ensures ok <==> Server.Reach(old(View()), path).1.Some?
    {
      ok := vfs.Realpath(Terminated(virt_path[..]), path);
      if ok {
        effects := effects + [Os(vfs.RealPath())];
      }
    }

    /** docwd */
    method DoCwd(arg: CString, w: World)
      requires Valid() && vfs != null && state_pool && IsC(arg)
      modifies virt_path, vfs.buf, `effects
      ensures Valid() && View() == Server.DoCwd(old(View()), arg, w)
    {
      var ok := Reach(arg);
      if !ok || w.stat != Directory {
        return;
      }
      var done := vfs.Chdir(virt_path, arg);
      effects := effects + [Moved(Cwd())];
    }

    /** list_directory. The saved copy of the directory is not put back when opendir fails. */
    method ListDirectory(dirname: CString, w: World)
      requires Valid() && vfs != null && IsC(dirname) && forall k | 0 <= k < |w.entries| :: IsC(w.entries[k])
      modifies virt_path, vfs.buf, `effects
      ensures Valid() && View() == Server.ListDirectory(old(View()), dirname, w)
    {
      ghost var s := View();
      var temp_path_buffer := Terminated(virt_path[..]);
      var changed := vfs.Chdir(virt_path, dirname);
      ghost var t := View();
      assert t == Server.Chdir(s, dirname);
      var found := Reach(".");
      if !found || !w.open_ok {
        return;
      }
      SendEntries(w.entries);
      Restore(temp_path_buffer);
    }

    /** The readdir loop: a vfs_stat for every name. */
    method SendEntries(entries: seq<CString>)
      requires Valid() && vfs != null && forall k | 0 <= k < |entries| :: IsC(entries[k])
      modifies vfs.buf, `effects
      ensures Valid() && View() == ListEntries(old(View()), entries)
    {
      var k := 0;
      while k < |entries|
        invariant 0 <= k <= |entries|
        invariant Valid() && ListEntries(View(), entries[k..]) == ListEntries(old(View()), entries)
      {
        assert entries[k..][0] == entries[k] && entries[k..][1..] == entries[k + 1..];
        var found := Reach(entries[k]);
        k := k + 1;
      }
    }

    method Restore(path: CString)
      requires Valid() && Canonical(path)
      modifies virt_path
      ensures Valid() && View() == old(View()).(cwd := path)
    {
      var len := Strlcpy(virt_path, 0, path, FTP_MAX_PATH);
      CopiedSays(old(virt_path[..]), path, FTP_MAX_PATH);
      assert virt_path[0..FTP_MAX_PATH] == virt_path[..] && old(virt_path[0..FTP_MAX_PATH]) == old(virt_path[..]);
    }

    /** dopasv */
    method DoPasv(w: World)
      requires Valid()
      modifies `listening, `alive
      ensures Valid() && View() == Server.DoPasv(old(View()), w)
    {
      listening := false;
      if !w.socket_ok {
        alive := false;
        return;
      }
      listening := true;
      if !w.listen_ok {
        listening := false;
      }
    }

    /** dolist */
    method DoList(arg: CString, w: World)
      requires Valid() && vfs != null && IsC(arg) && forall k | 0 <= k < |w.entries| :: IsC(w.entries[k])
      modifies virt_path, vfs.buf, `effects, `alive
      ensures Valid() && View() == Server.DoList(old(View()), arg, w)
    {
      var name := ListTarget(arg);
      Framer.ListPathIsC(arg);
      var ok := Reach(name);
      if !ok || w.stat == Missing {
        return;
      }
      Accept(w);
      if w.accept.Connection? {
        if w.stat == Directory {
          ListDirectory(name, w);
        } else {
          ok := Reach(name);
        }
      }
    }

    /** accept_data_conn */
    method Accept(w: World)
      requires Valid()
      modifies `effects, `alive
      ensures Valid() && View() == DoAccept(old(View()), w)
    {
      effects := effects + [Effect.Accept(listening)];
      if w.accept.Ended? {
        alive := false;
      }
    }

    /** doretr, around the transfer of module Transfer. */
    method DoRetr(arg: CString, w: World)
      requires Valid() && vfs != null && state_pool && IsC(arg)
      modifies vfs.buf, `effects, `alive, `restart_pos
      ensures Valid() && View() == Server.DoRetr(old(View()), arg, w)
    {
      if |BaseName(arg)| >= FTP_MAX_NAME {
        return;
      }
      var ok := Reach(arg);
      if !ok || w.stat != Regular {
        return;
      }
      ok := Reach(arg);
      if !w.open_ok {
        return;
      }
      Accept(w);
      if w.accept.Connection? && restart_pos <= w.size {
        TellTwice();
        restart_pos := 0;
      }
    }

    /** send_state at the start and at the end of a transfer. */
    method TellTwice()
      requires Valid() && state_pool
      modifies `effects
      ensures Valid() && View() == Send(Send(old(View()), Told), Told)
    {
      effects := effects + [Told] + [Told];
    }

    /** dostor, around the transfer. */
    method DoStor(arg: CString, w: World)
      requires Valid() && vfs != null && state_pool && IsC(arg)
      modifies vfs.buf, `effects, `alive
      ensures Valid() && View() == Server.DoStor(old(View()), arg, w)
    {
      if |BaseName(arg)| >= FTP_MAX_NAME {
        return;
      }
      var ok := Reach(arg);
      if !ok || !w.open_ok {
        return;
      }
      Accept(w);
      if w.accept.Connection? {
        TellTwice();
      }
    }

    /** The handlers behind the login gate that go through the path pool. */
    method DispatchPath(h: Handler, arg: CString, w: World)
      requires Valid() && login.logged_in && IsC(arg) && forall k | 0 <= k < |w.entries| :: IsC(w.entries[k])
      requires UsesPath(h)
      modifies virt_path, vfs.buf, `effects, `alive, `restart_pos
      ensures Valid() && View() == Handle(setup, old(View()), h, arg, w)
    {
      HandleIs(setup, View(), h, arg, w);
      if h.Cwd? || h.Cdup? {
        DoCwd(if h.Cdup? then ".." else arg, w);
      } else if UsesData(h) {
        DispatchData(h, arg, w);
      } else {
        var ok := Reach(arg);
      }
    }

    /** The handlers that accept a data connection. */
    method DispatchData(h: Handler, arg: CString, w: World)
      requires Valid() && vfs != null && state_pool && IsC(arg) && forall k | 0 <= k < |w.entries| :: IsC(w.entries[k])
      requires UsesData(h)
      modifies virt_path, vfs.buf, `effects, `alive, `restart_pos
      ensures Valid() && View() == DataHandler(old(View()), h, arg, w)
    {
      if h.List? {
        DoList(arg, w);
      } else if h.Retr? {
        DoRetr(arg, w);
      } else {
        DoStor(arg, w);
      }
    }

    /** The handlers that do not. */
    method DispatchPlain(h: Handler, arg: CString, w: World)
      requires Valid() && IsSetup(setup) && IsC(arg)
      requires !UsesPath(h)
      modifies this
      ensures Valid() && View() == Handle(setup, old(View()), h, arg, w) && fresh(Repr() - old(Repr()))
    {
      HandleIs(setup, View(), h, arg, w);
      if h.User? {
        DoUser(arg);
      } else if h.Pass? {
        DoPass(arg, w);
      } else if h.Pasv? {
        DoPasv(w);
      } else if h.Rest? {
        DoRest(w);
      } else if h.Quit? {
        DoQuit();
      }
    }

    method DoRest(w: World)
      requires Valid()
      modifies `restart_pos
      ensures Valid() && View() == Server.DoRest(old(View()), w)
    {
      restart_pos := if w.offset == None then 0 else w.offset.value;
    }

    method DoQuit()
      requires Valid()
      modifies `alive
      ensures Valid() && View() == old(View()).(alive := false)
    {
      alive := false;
    }

    /** The call through the handler pointer. */
    method Dispatch(h: Handler, arg: CString, w: World)
      requires Valid() && IsSetup(setup) && IsC(arg) && forall k | 0 <= k < |w.entries| :: IsC(w.entries[k])
      requires UsesPath(h) ==> login.logged_in
      modifies Repr()
      ensures Valid() && View() == Handle(setup, old(View()), h, arg, w) && fresh(Repr() - old(Repr()))
    {
      if UsesPath(h) {
        DispatchPath(h, arg, w);
      } else {
        DispatchPlain(h, arg, w);
      }
    }

    /** The gate and the handler of one command. */
    method Obey(e: Entry, arg: CString, w: World)
      requires Valid() && IsSetup(setup) && e in setup.table
      requires IsC(arg) && forall k | 0 <= k < |w.entries| :: IsC(w.entries[k])
      modifies Repr()
      ensures Valid() && fresh(Repr() - old(Repr()))
      ensures View() == if Gate(e, old(View()), arg) then Handle(setup, old(View()), e.handler, arg, w) else old(View())
    {
      var ok := PreCommand(e, arg);
      if ok {
        assert UsesPath(e.handler) ==> login.logged_in by {
          if UsesPath(e.handler) { PathsNeedLogin(setup.table, e); }
        }
        Dispatch(e.handler, arg, w);
      }
    }

    /** bsearch in the pool is a lookup in the table. */
    method FindCommand(verb: CString) returns (e: Option<Entry>)
      requires Indexed() && IsSetup(setup)
      ensures e == Lookup(setup.table, verb)
    {
      e := commands.Bsearch(verb);
      EqualToItself(Row(User).name);
      TableIsUnambiguous(setup.table, User, Row(User).name);
    }

    /** pre_command */
    method PreCommand(e: Entry, arg: CString) returns (ok: bool)
      ensures ok == Gate(e, View(), arg)
    {
      ok := !(e.needs_login && !login.logged_in) && !(e.needs_data && !listening) && !(e.needs_arg && arg == []);
    }

    /** do_cmd: the session object goes through every command as the session machine does, and no
        command uses the path pool or the data socket before it is there. */
    method DoCmd(i: Input)
      requires Valid() && Indexed() && IsSetup(setup) && IsInput(i) && alive && !fault
      modifies Repr()
      ensures Valid() && Indexed() && fresh(Repr() - old(Repr()))
      ensures View() == Step(setup, old(View()), i)
    {
      ghost var s := View();
      var e := FindCommand(i.verb);
      assert Step(setup, s, i) == Answer(setup, s, e, i) by { StepIs(setup, s, i); }
      assert commands as object !in Repr() && commands.pool as object !in Repr();
      if e.Some? {
        Obey(e.value, i.arg, i.world);
      }
    }
  }
}
