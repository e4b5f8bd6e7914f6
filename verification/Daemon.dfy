/** daemon.c, child.c, signals.c and the pipe of state.c as one step system: the daemon, its
    children and the kernel take turns in any order. */
module Daemon {
  import opened CStrings
  import opened Wire

  datatype Signal = CHLD | INT | TERM | HUP | PIPE | OTHER

  /** One entry of the daemon's list. */
  datatype Client = Client(pid: nat, rec: Record)

  /** A child process: its state_pool, and everything it has told the daemon. */
  datatype Speaker = Speaker(pool: Pool, told: View)

  /** Where the daemon is: at the head of its loop, between fork and add_client, or gone. */
  datatype Control = Loop | Forked(child: nat) | Exited

  datatype State = State(
    control: Control,
    list: seq<Client>,            // the linked list behind the head node
    pipe: Bytes,                  // bytes written and not yet read
    children: map<nat, Speaker>,  // child processes not yet waited for
    dead: set<nat>,               // those of them that have terminated
    pending: bool,                // SIGCHLD pending for the daemon
    flags: set<Signal>,           // the bits of signal_flag
    fault: bool)                  // recv_state failed, or remove_client ran off the list

  const NO_LIMIT := -1

  function Fresh(): Speaker { Speaker(Zeros(FTP_MAX_PATH), ViewOf(NewRecord())) }

  function Init(): State { State(Loop, [], [], map[], {}, false, {}, false) }

  // ---- The pieces of the daemon ---------------------------------------------------

  /** find_client, as a position. */
  function Find(list: seq<Client>, pid: nat): (i: nat)
    ensures i <= |list| && (i < |list| ==> list[i].pid == pid)
    ensures forall k | 0 <= k < i :: list[k].pid != pid
  {
    if list == [] || list[0].pid == pid then 0 else 1 + Find(list[1..], pid)
  }

  /** remove_client; None is the walk past the end of the list. */
  function Remove(list: seq<Client>, pid: nat): Option<seq<Client>>
  {
    var i := Find(list, pid);
    if i == |list| then None else Some(list[..i] + list[i + 1..])
  }

  /** The record of one client after its frames among `fs`, in order. */
  function Absorb(r: Record, fs: seq<Frame>, pid: nat): Record
    decreases |fs|
  {
    if fs == [] then r
    else
      Absorb(if fs[0].pid == pid then Receive(r, fs[0].kind, fs[0].payload) else r, fs[1..], pid)
  }

  /** A received frame updates the first client with its pid, or is skipped over. */
  function Update(list: seq<Client>, f: Frame): (r: seq<Client>)
    ensures |r| == |list|
    ensures forall i | 0 <= i < |list| :: r[i].pid == list[i].pid
  {
    var i := Find(list, f.pid);
    if i == |list| then list
    else list[i := Client(f.pid, Receive(list[i].rec, f.kind, f.payload))]
  }

  /** recv_state; None is its FTP_ERROR. */
  function Recv(list: seq<Client>, pipe: Bytes): Option<(seq<Client>, Bytes)>
  {
    match Decode(pipe)
    case None => None
    case Some(f) => Some((Update(list, f), pipe[FrameSize(f)..]))
  }

  // ---- Steps ----------------------------------------------------------------------

  datatype Step =
    | Fork(pid: nat)              // handle_client up to fork
    | Add                         // new_client and add_client in the parent
    | Say(speaker: nat, m: Message) // send_state in a child
    | Die(child: nat)
    | Deliver                     // the kernel runs the handler for SIGCHLD
    | Raise(sig: Signal)          // the handler for any other signal
    | HandleSignal(waited: Option<nat>) // daemon_handle_signal; waitpid finds this child, or none
    | ReceiveOne                  // recv_state

  predicate InFlight(pipe: Bytes, pid: nat)
  {
    Frames(pipe).Some? && exists f | f in Frames(pipe).value :: f.pid == pid
  }

  /** What the code tests before a step, and what the environment guarantees about it. */
  predicate Enabled(cap: int, s: State, step: Step)
  {
    match step
    case Fork(pid) =>
      && s.control == Loop && (cap == NO_LIMIT || |s.list| < cap)
      && 0 < pid < PID_LIMIT && pid !in s.children && !InFlight(s.pipe, pid)
    case Add => s.control.Forked?
    case Say(p, m) => p in s.children && p !in s.dead && p < PID_LIMIT && IsMessage(m)
    case Die(p) => p in s.children && p !in s.dead
    case Deliver => s.pending
    case Raise(sig) => sig != CHLD
    case HandleSignal(waited) =>
      && s.control == Loop
      && (CHLD in s.flags ==> if s.dead == {} then waited == None else waited.Some? && waited.value in s.dead)
    case ReceiveOne => s.control == Loop && s.pipe != []
  }

  /** A terminated child is waited for and its entry is unlinked. */
  function Reap(s: State, pid: nat): State
  {
    var t := s.(children := s.children - {pid}, dead := s.dead - {pid});
    match Remove(s.list, pid)
    case None => t.(fault := true)
    case Some(l) => t.(list := l)
  }

  function Apply(cap: int, s: State, step: Step): State
    requires Enabled(cap, s, step)
  {
    match step
    case Fork(pid) => s.(control := Forked(pid), children := s.children[pid := Fresh()])
    case Add => s.(control := Loop, list := s.list + [Client(s.control.child, NewRecord())])
    case Say(p, m) =>
      var c := s.children[p];
      if Sendable(m) then
        s.(children := s.children[p := Speaker(Fill(c.pool, m), Tell(c.told, c.pool, m))],
           pipe := s.pipe + Encode(Packet(p, KindOfMessage(m), Payload(c.pool, m))))
      else s.(children := s.children[p := Speaker(Fill(c.pool, m), c.told)])
    case Die(p) => s.(dead := s.dead + {p}, pending := true)
    case Deliver => s.(pending := false, flags := s.flags + {CHLD})
    case Raise(sig) => s.(flags := s.flags + {sig})
    case HandleSignal(waited) =>
      if CHLD in s.flags then
        // `&= !RECV_SIGCHLD` clears every bit
        var t := s.(flags := {});
        if waited == None then t.(fault := true) else Reap(t, waited.value)
      else if s.flags != {} then s.(flags := {}, control := Exited)
      else s
    case ReceiveOne =>
      match Recv(s.list, s.pipe)
      case None => s.(fault := true)
      case Some((l, rest)) => s.(list := l, pipe := rest)
  }

  /** Any schedule of steps; one that is not enabled does not happen. */
  function Run(cap: int, s: State, steps: seq<Step>): State
    decreases |steps|
  {
    if steps == [] then s
    else Run(cap, if Enabled(cap, s, steps[0]) then Apply(cap, s, steps[0]) else s, steps[1..])
  }

  // ---- The invariant --------------------------------------------------------------

  function One(b: bool): nat { if b then 1 else 0 }

  ghost predicate SignalsCounted(s: State)
  {
    s.dead <= s.children.Keys && |s.dead| >= One(CHLD in s.flags) + One(s.pending)
  }

  ghost predicate Listed(list: seq<Client>, pid: nat) { exists i :: 0 <= i < |list| && list[i].pid == pid }

  ghost predicate Distinct(list: seq<Client>)
  {
    forall i, j | 0 <= i < j < |list| :: list[i].pid != list[j].pid
  }

  /** The list is exactly the unreaped children, each once, but for one just forked. */
  ghost predicate ListExact(list: seq<Client>, children: set<nat>, control: Control)
  {
    && Distinct(list)
    && (control.Forked? ==> control.child in children)
    && forall p :: Listed(list, p) <==> p in children && control != Forked(p)
  }

  ghost predicate PipeWhole(pipe: Bytes) { Frames(pipe).Some? && AllSafe(Frames(pipe).value) }

  ghost predicate AllSafe(fs: seq<Frame>) { forall i | 0 <= i < |fs| :: SafeFrame(fs[i]) }

  ghost predicate PoolsTerminated(s: State)
  {
    forall p | p in s.children :: p < PID_LIMIT && s.children[p].pool[FTP_MAX_PATH - 1] == NUL
  }

  ghost predicate RecordsTerminated(list: seq<Client>)
  {
    forall i | 0 <= i < |list| :: Terminates(list[i].rec)
  }

  /** What is known about a client, once the frames on the way have arrived, is what it told. */
  ghost predicate InStep(fs: seq<Frame>, children: map<nat, Speaker>, pid: nat, r: Record)
  {
    pid in children && ViewOf(Absorb(r, fs, pid)) == children[pid].told
  }

  ghost predicate AllInStep(fs: seq<Frame>, children: map<nat, Speaker>, list: seq<Client>, control: Control)
  {
    && (forall i | 0 <= i < |list| :: InStep(fs, children, list[i].pid, list[i].rec))
    && (control.Forked? ==> InStep(fs, children, control.child, NewRecord()))
  }

  ghost predicate Capped(cap: int, s: State)
  {
    cap != NO_LIMIT ==> |s.list| + One(s.control.Forked?) <= (if cap < 0 then 0 else cap)
  }

  /** The daemon's books: the list, the cap and the count of dead children are right. */
  ghost predicate Books(cap: int, s: State)
  {
    !s.fault && SignalsCounted(s) && ListExact(s.list, s.children.Keys, s.control) && Capped(cap, s)
  }

  /** The conversation: the pipe is whole, strings end, and nobody's story is lost. */
  ghost predicate Talk(s: State)
  {
    && PipeWhole(s.pipe) && PoolsTerminated(s) && RecordsTerminated(s.list)
    && AllInStep(Frames(s.pipe).value, s.children, s.list, s.control)
  }

  ghost predicate Inv(cap: int, s: State) { Books(cap, s) && Talk(s) }

  // ---- Frames one at a time -------------------------------------------------------

  lemma {:induction false} AbsorbAppend(r: Record, fs: seq<Frame>, f: Frame, pid: nat)
    ensures Absorb(r, fs + [f], pid) ==
            var before := Absorb(r, fs, pid);
            if f.pid == pid then Receive(before, f.kind, f.payload) else before
    decreases |fs|
  {
    if fs == [] {
      assert ([f])[1..] == [];
      assert fs + [f] == [f];
    } else {
      assert (fs + [f])[0] == fs[0] && (fs + [f])[1..] == fs[1..] + [f];
      AbsorbAppend(if fs[0].pid == pid then Receive(r, fs[0].kind, fs[0].payload) else r, fs[1..], f, pid);
    }
  }

  lemma {:induction false} AbsorbNothing(r: Record, fs: seq<Frame>, pid: nat)
    requires forall i | 0 <= i < |fs| :: fs[i].pid != pid
    ensures Absorb(r, fs, pid) == r
    decreases |fs|
  {
    if fs != [] { AbsorbNothing(r, fs[1..], pid); }
  }

  lemma {:induction false} AbsorbFirst(r: Record, f: Frame, fs: seq<Frame>, pid: nat)
    ensures Absorb(r, [f] + fs, pid) ==
            Absorb(if f.pid == pid then Receive(r, f.kind, f.payload) else r, fs, pid)
  {
    assert ([f] + fs)[1..] == fs;
  }

  // ---- Every step keeps the invariant ---------------------------------------------

  lemma {:induction false} ForkKeeps(cap: int, s: State, pid: nat)
    requires Inv(cap, s) && Enabled(cap, s, Fork(pid))
    ensures Inv(cap, Apply(cap, s, Fork(pid)))
  {
    assert Books(cap, Apply(cap, s, Fork(pid))) by {
      assert s.children[pid := Fresh()].Keys == s.children.Keys + {pid};
    }
    assert Talk(Apply(cap, s, Fork(pid))) by {
      ForkInStep(Frames(s.pipe).value, s.children, s.list, s.control, pid);
    }
  }

  lemma {:induction false} ForkInStep(fs: seq<Frame>, children: map<nat, Speaker>, list: seq<Client>, control: Control, pid: nat)
    requires AllInStep(fs, children, list, control) && pid !in children
    requires forall f | f in fs :: f.pid != pid
    ensures AllInStep(fs, children[pid := Fresh()], list, Forked(pid))
  {
    AbsorbNothing(NewRecord(), fs, pid);
    assert forall i | 0 <= i < |list| :: InStep(fs, children, list[i].pid, list[i].rec);
  }

  lemma {:induction false} AddKeeps(cap: int, s: State)
    requires Inv(cap, s) && Enabled(cap, s, Add)
    ensures Inv(cap, Apply(cap, s, Add))
  {
    AddedList(s.list, s.children.Keys, s.control.child);
  }

  lemma {:induction false} AddedList(list: seq<Client>, children: set<nat>, p: nat)
    requires ListExact(list, children, Forked(p))
    ensures ListExact(list + [Client(p, NewRecord())], children, Loop)
  {
    var more := list + [Client(p, NewRecord())];
    assert more[|list|].pid == p;
    forall q ensures Listed(more, q) <==> Listed(list, q) || q == p {
      if Listed(list, q) {
        var i :| 0 <= i < |list| && list[i].pid == q;
        assert more[i].pid == q;
      }
    }
    assert !Listed(list, p);
    assert forall i | 0 <= i < |list| :: Listed(list, list[i].pid);
  }

  lemma {:induction false} SayKeeps(cap: int, s: State, p: nat, m: Message)
    requires Inv(cap, s) && Enabled(cap, s, Say(p, m))
    ensures Inv(cap, Apply(cap, s, Say(p, m)))
  {
    assert Books(cap, Apply(cap, s, Say(p, m))) by {
      assert Apply(cap, s, Say(p, m)).children.Keys == s.children.Keys;
    }
    SayKeepsTalk(cap, s, p, m);
  }

  lemma {:induction false} SayKeepsTalk(cap: int, s: State, p: nat, m: Message)
    requires Talk(s) && Enabled(cap, s, Say(p, m))
    ensures Talk(Apply(cap, s, Say(p, m)))
  {
    var c := s.children[p];
    FillKeepsLastNul(c.pool, m);
    SayInStep(Frames(s.pipe).value, s.children, s.list, s.control, p, m);
    if Sendable(m) {
      PayloadIsSafe(p, c.pool, m);
      FramesAppend(s.pipe, Packet(p, KindOfMessage(m), Payload(c.pool, m)));
    }
  }

  /** A new frame brings the daemon's view along with what the child told. */
  lemma {:induction false} SayInStep(fs: seq<Frame>, children: map<nat, Speaker>, list: seq<Client>, control: Control,
                                     p: nat, m: Message)
    requires AllInStep(fs, children, list, control) && p in children && IsMessage(m)
    ensures var c := children[p];
            Sendable(m) ==>
              AllInStep(fs + [Packet(p, KindOfMessage(m), Payload(c.pool, m))],
                        children[p := Speaker(Fill(c.pool, m), Tell(c.told, c.pool, m))], list, control)
    ensures var c := children[p];
            AllInStep(fs, children[p := Speaker(Fill(c.pool, m), c.told)], list, control)
  {
    assert forall i | 0 <= i < |list| :: InStep(fs, children, list[i].pid, list[i].rec);
    if Sendable(m) {
      forall i | 0 <= i < |list| ensures SaidInStep(fs, children, p, m, list[i].pid, list[i].rec) {
        SayOneInStep(fs, children, p, m, list[i].pid, list[i].rec);
      }
      if control.Forked? { SayOneInStep(fs, children, p, m, control.child, NewRecord()); }
    }
  }

  ghost predicate SaidInStep(fs: seq<Frame>, children: map<nat, Speaker>, p: nat, m: Message, pid: nat, r: Record)
    requires p in children && IsMessage(m)
  {
    var c := children[p];
    InStep(fs + [Packet(p, KindOfMessage(m), Payload(c.pool, m))],
           children[p := Speaker(Fill(c.pool, m), Tell(c.told, c.pool, m))], pid, r)
  }

  lemma {:induction false} SayOneInStep(fs: seq<Frame>, children: map<nat, Speaker>, p: nat, m: Message, pid: nat, r: Record)
    requires p in children && IsMessage(m) && Sendable(m) && InStep(fs, children, pid, r)
    ensures SaidInStep(fs, children, p, m, pid, r)
  {
    var c := children[p];
    AbsorbAppend(r, fs, Packet(p, KindOfMessage(m), Payload(c.pool, m)), pid);
    if p == pid { ReceivingIsTold(Absorb(r, fs, pid), c.pool, m); }
  }

  lemma {:induction false} FindsIt(list: seq<Client>, pid: nat)
    ensures Listed(list, pid) <==> Find(list, pid) < |list|
  {
    if Find(list, pid) < |list| { assert list[Find(list, pid)].pid == pid; }
  }

  /** daemon_handle_signal: the flag implies a dead child, and that child is in the list. */
  lemma {:induction false} HandleSignalKeeps(cap: int, s: State, waited: Option<nat>)
    requires Inv(cap, s) && Enabled(cap, s, HandleSignal(waited))
    ensures Inv(cap, Apply(cap, s, HandleSignal(waited)))
  {
    if CHLD in s.flags {
      assert s.dead != {};
      var t := s.(flags := {});
      FindsIt(s.list, waited.value);
      ReapKeepsBooks(cap, t, waited.value);
      ReapKeepsTalk(t, waited.value);
    }
  }

  lemma {:induction false} ReapKeepsBooks(cap: int, s: State, p: nat)
    requires Books(cap, s) && s.control == Loop && CHLD !in s.flags && p in s.dead && |s.dead| > One(s.pending)
    ensures Books(cap, Reap(s, p))
  {
    ReapedList(s.list, s.children.Keys, p);
    assert (s.children - {p}).Keys == s.children.Keys - {p};
    assert |s.dead - {p}| == |s.dead| - 1;
  }

  lemma {:induction false} ReapedList(list: seq<Client>, children: set<nat>, p: nat)
    requires ListExact(list, children, Loop) && p in children
    ensures Remove(list, p).Some? && |Remove(list, p).value| == |list| - 1
    ensures ListExact(Remove(list, p).value, children - {p}, Loop)
  {
    assert Find(list, p) < |list| by {
      assert Listed(list, p);
      FindsIt(list, p);
    }
    RemovedList(list, Find(list, p));
  }

  lemma {:induction false} ReapKeepsTalk(s: State, p: nat)
    requires Talk(s) && Distinct(s.list) && s.control == Loop && Find(s.list, p) < |s.list|
    ensures Talk(Reap(s, p))
  {
    RemovedList(s.list, Find(s.list, p));
    RemovedInStep(Frames(s.pipe).value, s.children, s.list, Find(s.list, p));
  }

  lemma {:induction false} RemovedList(list: seq<Client>, i: nat)
    requires i < |list| && Distinct(list)
    ensures var rest := list[..i] + list[i + 1..];
            && Distinct(rest) && (RecordsTerminated(list) ==> RecordsTerminated(rest))
            && forall p :: Listed(rest, p) <==> Listed(list, p) && p != list[i].pid
  {
    var rest := list[..i] + list[i + 1..];
    forall p ensures Listed(rest, p) <==> Listed(list, p) && p != list[i].pid {
      if Listed(list, p) && p != list[i].pid {
        var k :| 0 <= k < |list| && list[k].pid == p;
        assert rest[if k < i then k else k - 1].pid == p;
      }
      if Listed(rest, p) {
        var k :| 0 <= k < |rest| && rest[k].pid == p;
        assert list[if k < i then k else k + 1].pid == p;
      }
    }
  }

  lemma {:induction false} RemovedInStep(fs: seq<Frame>, children: map<nat, Speaker>, list: seq<Client>, i: nat)
    requires i < |list| && Distinct(list) && AllInStep(fs, children, list, Loop)
    ensures AllInStep(fs, children - {list[i].pid}, list[..i] + list[i + 1..], Loop)
  {
    var rest := list[..i] + list[i + 1..];
    forall k | 0 <= k < |rest| ensures InStep(fs, children - {list[i].pid}, rest[k].pid, rest[k].rec) {
      var j := if k < i then k else k + 1;
      assert InStep(fs, children, list[j].pid, list[j].rec) && list[j].pid != list[i].pid;
    }
  }

  /** recv_state: the first frame is whole, and consuming it changes no client's outcome. */
  lemma {:induction false} ReceiveKeeps(cap: int, s: State)
    requires Inv(cap, s) && Enabled(cap, s, ReceiveOne)
    ensures Inv(cap, Apply(cap, s, ReceiveOne))
  {
    FramesFirst(s.pipe);
    var f := Decode(s.pipe).value;
    var fs := Frames(s.pipe[FrameSize(f)..]).value;
    assert AllSafe(fs) && SafeFrame(f) by {
      assert SafeFrame(([f] + fs)[0]);
      assert forall i | 0 <= i < |fs| :: fs[i] == ([f] + fs)[i + 1];
    }
    ReceivedList(s.list, f);
    ReceivedInStep(f, fs, s.children, s.list);
  }

  lemma {:induction false} ReceivedList(list: seq<Client>, f: Frame)
    requires Distinct(list) && RecordsTerminated(list) && SafeFrame(f)
    ensures Distinct(Update(list, f)) && RecordsTerminated(Update(list, f))
    ensures forall p :: Listed(Update(list, f), p) <==> Listed(list, p)
  {
    var after := Update(list, f);
    var at := Find(list, f.pid);
    if at < |list| { ReceiveTerminates(list[at].rec, f); }
    forall p ensures Listed(after, p) <==> Listed(list, p) {
      if Listed(list, p) { var i :| 0 <= i < |list| && list[i].pid == p; assert after[i].pid == p; }
      if Listed(after, p) { var i :| 0 <= i < |after| && after[i].pid == p; assert list[i].pid == p; }
    }
  }

  lemma {:induction false} ReceivedInStep(f: Frame, fs: seq<Frame>, children: map<nat, Speaker>, list: seq<Client>)
    requires Distinct(list) && AllInStep([f] + fs, children, list, Loop)
    ensures AllInStep(fs, children, Update(list, f), Loop)
  {
    var after := Update(list, f);
    forall i | 0 <= i < |after| ensures InStep(fs, children, after[i].pid, after[i].rec) {
      assert InStep([f] + fs, children, list[i].pid, list[i].rec);
      AbsorbFirst(list[i].rec, f, fs, list[i].pid);
      if list[i].pid == f.pid { assert i == Find(list, f.pid); }
    }
  }

  lemma {:induction false} KernelKeeps(cap: int, s: State, step: Step)
    requires Inv(cap, s) && Enabled(cap, s, step) && (step.Die? || step.Deliver? || step.Raise?)
    ensures Inv(cap, Apply(cap, s, step))
  {
    match step
    case Die(p) => assert |s.dead + {p}| == |s.dead| + 1;
    case Deliver =>
    case Raise(_) =>
  }

  lemma {:induction false} StepKeeps(cap: int, s: State, step: Step)
    requires Inv(cap, s) && Enabled(cap, s, step)
    ensures Inv(cap, Apply(cap, s, step))
  {
    match step
    case Fork(pid) => ForkKeeps(cap, s, pid);
    case Add => AddKeeps(cap, s);
    case Say(p, m) => SayKeeps(cap, s, p, m);
    case Die(_) => KernelKeeps(cap, s, step);
    case Deliver => KernelKeeps(cap, s, step);
    case Raise(_) => KernelKeeps(cap, s, step);
    case HandleSignal(waited) => HandleSignalKeeps(cap, s, waited);
    case ReceiveOne => ReceiveKeeps(cap, s);
  }

  lemma {:induction false} RunKeeps(cap: int, s: State, steps: seq<Step>)
    requires Inv(cap, s)
    ensures Inv(cap, Run(cap, s, steps))
    decreases |steps|
  {
    if steps != [] {
      if Enabled(cap, s, steps[0]) {
        StepKeeps(cap, s, steps[0]);
        RunKeeps(cap, Apply(cap, s, steps[0]), steps[1..]);
      } else {
        RunKeeps(cap, s, steps[1..]);
      }
    }
  }

  lemma {:induction false} InitHolds(cap: int)
    ensures Inv(cap, Init())
  {}

  // ---- What holds in every run ----------------------------------------------------

  /** No schedule makes recv_state fail or remove_client run past the end of its list: every
      frame read is whole, with the right magic and a known type, and waitpid finds a child. */
  lemma {:induction false} NeverFaults(cap: int, steps: seq<Step>)
    ensures !Run(cap, Init(), steps).fault
    ensures Frames(Run(cap, Init(), steps).pipe).Some?
    ensures var s := Run(cap, Init(), steps); CHLD in s.flags ==> s.dead != {}
  {
    InitHolds(cap);
    RunKeeps(cap, Init(), steps);
  }

  /** What Master.HandleSignal asks of its caller holds whenever a run gets there. */
  lemma {:induction false} WaitedIsListed(cap: int, steps: seq<Step>, waited: Option<nat>)
    requires Enabled(cap, Run(cap, Init(), steps), HandleSignal(waited))
    ensures var s := Run(cap, Init(), steps);
            CHLD in s.flags ==> waited.Some? && Listed(s.list, waited.value)
  {
    InitHolds(cap);
    RunKeeps(cap, Init(), steps);
    assert CHLD in Run(cap, Init(), steps).flags ==> Run(cap, Init(), steps).dead != {};
  }

  lemma {:induction false} DistinctCount(list: seq<Client>, pids: set<nat>)
    requires Distinct(list) && forall p :: Listed(list, p) <==> p in pids
    ensures |pids| == |list|
    decreases |list|
  {
    if list == [] {
      assert forall p :: p !in pids by {
        forall p ensures p !in pids { assert !Listed(list, p); }
      }
      assert pids == {};
    } else {
      var last := list[|list| - 1].pid;
      var front := list[..|list| - 1];
      RemovedList(list, |list| - 1);
      assert front + list[|list|..] == front;
      DistinctCount(front, pids - {last});
      assert Listed(list, last);
    }
  }

  /** At the head of the daemon's loop the list is the unreaped children, each once; no schedule
      brings the number of children above the cap. */
  lemma {:induction false} ListIsTheChildren(cap: int, steps: seq<Step>)
    ensures var s := Run(cap, Init(), steps);
            && (s.control != Loop || (Distinct(s.list) && forall p :: Listed(s.list, p) <==> p in s.children))
            && (cap != NO_LIMIT ==> |s.children| <= if cap < 0 then 0 else cap)
            && |s.children| == |s.list| + One(s.control.Forked?)
  {
    InitHolds(cap);
    RunKeeps(cap, Init(), steps);
    var s := Run(cap, Init(), steps);
    if s.control.Forked? {
      DistinctCount(s.list, s.children.Keys - {s.control.child});
    } else {
      DistinctCount(s.list, s.children.Keys);
    }
  }

  /** Whatever is still in the pipe, reading it in order will leave each listed client's record
      saying exactly what that child told, and with an empty pipe it says so already. */
  lemma {:induction false} RecordsFollowTheChildren(cap: int, steps: seq<Step>, i: nat)
    requires i < |Run(cap, Init(), steps).list|
    ensures var s := Run(cap, Init(), steps);
            && s.list[i].pid in s.children && Frames(s.pipe).Some?
            && ViewOf(Absorb(s.list[i].rec, Frames(s.pipe).value, s.list[i].pid)) == s.children[s.list[i].pid].told
            && (s.pipe == [] ==> ViewOf(s.list[i].rec) == s.children[s.list[i].pid].told)
            && Terminates(s.list[i].rec)
  {
    InitHolds(cap);
    RunKeeps(cap, Init(), steps);
    var s := Run(cap, Init(), steps);
    assert InStep(Frames(s.pipe).value, s.children, s.list[i].pid, s.list[i].rec);
    if s.pipe == [] { assert Frames(s.pipe) == Some([]); }
  }

  /** Dead children no signal will make the daemon wait for. */
  function Forgotten(s: State): int { |s.dead| - One(CHLD in s.flags) - One(s.pending) }

  /** A SIGCHLD that adds nothing to the one already there: raised while one is pending, or delivered
      while the flag is still set. */
  predicate Merges(s: State, step: Step)
  {
    (step.Die? && s.pending) || (step.Deliver? && CHLD in s.flags)
  }

  /** How many signals a schedule merges. */
  function MergesIn(cap: int, s: State, steps: seq<Step>): nat
    decreases |steps|
  {
    if steps == [] then 0
    else if !Enabled(cap, s, steps[0]) then MergesIn(cap, s, steps[1..])
    else One(Merges(s, steps[0])) + MergesIn(cap, Apply(cap, s, steps[0]), steps[1..])
  }

  /** One child is waited for per flag, so every merged signal leaves one more dead child that nothing
      will make the daemon wait for, and nothing else does or makes up for it. */
  lemma {:induction false} ForgottenCountsMerges(cap: int, s: State, steps: seq<Step>)
    requires Inv(cap, s)
    ensures 0 <= Forgotten(s) && Forgotten(Run(cap, s, steps)) == Forgotten(s) + MergesIn(cap, s, steps)
    decreases |steps|
  {
    if steps != [] {
      var step := steps[0];
      if Enabled(cap, s, step) {
        StepKeeps(cap, s, step);
        ForgottenStep(cap, s, step);
        ForgottenCountsMerges(cap, Apply(cap, s, step), steps[1..]);
      } else {
        ForgottenCountsMerges(cap, s, steps[1..]);
      }
    }
  }

  /** Every dead child has a flag or a pending signal standing for it, at any point of a run, exactly
      when no signal was merged before. */
  lemma {:induction false} NobodyForgottenIff(cap: int, steps: seq<Step>)
    ensures var s := Run(cap, Init(), steps);
            && Forgotten(s) == MergesIn(cap, Init(), steps)
            && (|s.dead| == One(CHLD in s.flags) + One(s.pending) <==> MergesIn(cap, Init(), steps) == 0)
  {
    InitHolds(cap);
    ForgottenCountsMerges(cap, Init(), steps);
  }

  lemma {:induction false} ForgottenStep(cap: int, s: State, step: Step)
    requires SignalsCounted(s) && Enabled(cap, s, step)
    ensures Forgotten(Apply(cap, s, step)) == Forgotten(s) + One(Merges(s, step))
  {
    match step
    case Fork(_) =>
    case Add =>
    case Say(_, _) =>
    case Die(p) => assert |s.dead + {p}| == |s.dead| + 1;
    case Deliver =>
    case Raise(_) =>
    case HandleSignal(waited) =>
      if CHLD in s.flags {
        assert s.dead != {};
        ReapCounts(s.(flags := {}), waited.value);
      }
    case ReceiveOne =>
  }

  /** Whatever happens next, at least as many dead children as are forgotten now stay unreaped and
      keep places under the cap; later signals may reap one of them, but in another's stead. */
  lemma {:induction false} ForgottenStayListed(cap: int, s: State, steps: seq<Step>)
    requires Inv(cap, s)
    ensures Forgotten(s) <= |Run(cap, s, steps).dead| <= |Run(cap, s, steps).list| + One(Run(cap, s, steps).control.Forked?)
  {
    ForgottenCountsMerges(cap, s, steps);
    RunKeeps(cap, s, steps);
    var t := Run(cap, s, steps);
    if t.control.Forked? {
      DistinctCount(t.list, t.children.Keys - {t.control.child});
    } else {
      DistinctCount(t.list, t.children.Keys);
    }
    Fewer(t.dead, t.children.Keys);
  }

  lemma {:induction false} Fewer(a: set<nat>, b: set<nat>)
    requires a <= b
    ensures |a| <= |b|
  {
    assert b == a + (b - a);
  }

  lemma {:induction false} ReapCounts(s: State, p: nat)
    requires p in s.dead
    ensures var t := Reap(s, p); |t.dead| == |s.dead| - 1 && t.flags == s.flags && t.pending == s.pending
  {
    assert |s.dead - {p}| == |s.dead| - 1;
  }

  /** Signals do merge, wherever two children are alive: both die before the handler runs, one is waited
      for, and the other is in the list with no flag and no signal left to remove it. */
  lemma {:induction false} ASlotCanBeLost(cap: int, s: State, a: nat, b: nat, steps: seq<Step>)
    requires Inv(cap, s) && s.control == Loop && s.dead == {} && s.flags == {} && !s.pending
    requires a in s.children && b in s.children && a != b
    requires |steps| == 4 && steps[0] == Die(a) && steps[1] == Die(b) && steps[2] == Deliver
    requires steps[3] == HandleSignal(Some(a))
    ensures var t := Run(cap, s, steps);
            t.dead == {b} && b in t.children && Listed(t.list, b) && !t.pending && t.flags == {} && Forgotten(t) == 1
  {
    var s3 := s.(dead := {a, b}, pending := false, flags := {CHLD});
    RunThree(cap, s, a, b, steps);
    OneIsLeft(s3, a, b);
    LastStep(cap, s3, steps[3..], Reap(s3.(flags := {}), a));
  }

  lemma {:induction false} LastStep(cap: int, s: State, steps: seq<Step>, t: State)
    requires |steps| == 1 && Enabled(cap, s, steps[0]) && Apply(cap, s, steps[0]) == t
    ensures Run(cap, s, steps) == t
  {
    RunFirst(cap, s, steps);
    assert steps[1..] == [];
  }

  lemma {:induction false} OneIsLeft(s: State, a: nat, b: nat)
    requires ListExact(s.list, s.children.Keys, s.control) && s.control == Loop && a != b
    requires a in s.children && b in s.children && s.dead == {a, b} && s.flags == {CHLD} && !s.pending
    ensures var t := Reap(s.(flags := {}), a);
            && t.dead == {b} && b in t.children && Listed(t.list, b) && !t.pending && t.flags == {}
  {
    ReapedList(s.list, s.children.Keys, a);
    assert {a, b} - {a} == {b};
    assert b in s.children.Keys - {a};
    assert Listed(Remove(s.list, a).value, b);
  }

  lemma {:induction false} RunThree(cap: int, s: State, a: nat, b: nat, steps: seq<Step>)
    requires s.dead == {} && s.flags == {} && !s.pending && a in s.children && b in s.children && a != b
    requires |steps| == 4 && steps[0] == Die(a) && steps[1] == Die(b) && steps[2] == Deliver
    ensures Run(cap, s, steps) == Run(cap, s.(dead := {a, b}, pending := false, flags := {CHLD}), steps[3..])
  {
    RunFirst(cap, s, steps);
    var s1 := s.(dead := {a}, pending := true);
    assert Apply(cap, s, Die(a)) == s1 by { assert {} + {a} == {a}; }
    RunFirst(cap, s1, steps[1..]);
    var s2 := s.(dead := {a, b}, pending := true);
    assert Apply(cap, s1, Die(b)) == s2 by { assert {a} + {b} == {a, b}; }
    assert steps[1..][1..] == steps[2..] && steps[2..][1..] == steps[3..];
    RunFirst(cap, s2, steps[2..]);
    assert {} + {CHLD} == {CHLD};
  }

  lemma {:induction false} RunFirst(cap: int, s: State, steps: seq<Step>)
    requires steps != [] && Enabled(cap, s, steps[0])
    ensures Run(cap, s, steps) == Run(cap, Apply(cap, s, steps[0]), steps[1..])
  {}

  // ---- What was said --------------------------------------------------------------

  /** Everything the child with pid p has said since it was forked, in order, after `before`. */
  function Spoken(cap: int, s: State, steps: seq<Step>, p: nat, before: seq<Message>): seq<Message>
    decreases |steps|
  {
    if steps == [] then before
    else if !Enabled(cap, s, steps[0]) then Spoken(cap, s, steps[1..], p, before)
    else Spoken(cap, Apply(cap, s, steps[0]), steps[1..], p, Heard(steps[0], p, before))
  }

  /** What one step adds to it. */
  function Heard(step: Step, p: nat, before: seq<Message>): seq<Message>
  {
    match step
    case Fork(q) => if q == p then [] else before
    case Say(q, m) => if q == p then before + [m] else before
    case _ => before
  }

  // The lengths are those at which send_state gives up: 1024 for a directory, more than 256 for a file name.

  predicate Names(m: Message) { m.Named? }

  predicate Moves(m: Message) { m.Moved? && |m.path| < 1024 }

  predicate Starts(m: Message) { m.Started? && |m.filename| <= 256 }

  predicate Informs(m: Message) { m.Progress? || m.Stopped? }

  predicate Switches(m: Message) { m.Stopped? || Starts(m) }

  /** The i-th thing said is the last of its kind. */
  ghost predicate LastOf(said: seq<Message>, kind: Message -> bool, i: nat)
  {
    i < |said| && kind(said[i]) && forall j | i < j < |said| :: !kind(said[j])
  }

  ghost predicate Never(said: seq<Message>, kind: Message -> bool) { forall i | 0 <= i < |said| :: !kind(said[i]) }

  /** The login name last named, up to 63 bytes. */
  ghost predicate ShowsLogin(v: View, said: seq<Message>)
  {
    && (forall i: nat | LastOf(said, Names, i) :: v.login == said[i].user[..Min(|said[i].user|, 63)])
    && (Never(said, Names) ==> v.login == [])
  }

  /** The directory last moved to. */
  ghost predicate ShowsPath(v: View, said: seq<Message>)
  {
    && (forall i: nat | LastOf(said, Moves, i) && said[i].path != [] :: v.path == said[i].path)
    && (Never(said, Moves) ==> v.path == [])
  }

  /** The file last started, up to 255 bytes. */
  ghost predicate ShowsFile(v: View, said: seq<Message>)
  {
    && (forall i: nat | LastOf(said, Starts, i) && said[i].filename != [] ::
          v.filename == said[i].filename[..Min(|said[i].filename|, 255)])
    && (Never(said, Starts) ==> v.filename == [])
  }

  /** The last report of a transfer, and whether one was started and not stopped. */
  ghost predicate ShowsTransfer(v: View, said: seq<Message>)
  {
    && (forall i: nat | LastOf(said, Informs, i) :: v.info == said[i].info)
    && (forall i: nat | LastOf(said, Switches, i) :: v.busy == said[i].Started?)
    && (Never(said, Switches) ==> !v.busy)
  }

  ghost predicate Shows(v: View, said: seq<Message>)
  {
    ShowsLogin(v, said) && ShowsPath(v, said) && ShowsFile(v, said) && ShowsTransfer(v, said)
  }

  lemma {:induction false} LastOfMore(said: seq<Message>, m: Message, kind: Message -> bool)
    ensures forall i: nat :: LastOf(said + [m], kind, i) <==> if kind(m) then i == |said| else LastOf(said, kind, i)
    ensures Never(said + [m], kind) <==> !kind(m) && Never(said, kind)
  {
    var more := said + [m];
    assert more[|said|] == m && forall i | 0 <= i < |said| :: more[i] == said[i];
    forall i: nat ensures LastOf(more, kind, i) <==> if kind(m) then i == |said| else LastOf(said, kind, i) {
      if i < |said| { assert LastOf(more, kind, i) ==> !kind(more[|said|]); }
    }
    if Never(more, kind) {
      assert !kind(more[|said|]);
      assert forall i | 0 <= i < |said| :: !kind(more[i]);
    }
  }

  /** What a view shows after one more message has been told, or was too long to send. */
  lemma {:induction false} ShowsMore(v: View, pool: Pool, said: seq<Message>, m: Message)
    requires IsMessage(m) && Shows(v, said)
    ensures Shows(if Sendable(m) then Tell(v, pool, m) else v, said + [m])
  {
    var w := if Sendable(m) then Tell(v, pool, m) else v;
    assert (said + [m])[..|said|] == said;
    assert ShowsLogin(w, said + [m]) by { LastOfMore(said, m, Names); }
    assert ShowsPath(w, said + [m]) by { LastOfMore(said, m, Moves); }
    assert ShowsFile(w, said + [m]) by { LastOfMore(said, m, Starts); }
    assert ShowsTransfer(w, said + [m]) by {
      LastOfMore(said, m, Informs);
      LastOfMore(said, m, Switches);
    }
  }

  lemma {:induction false} FreshShowsNothing()
    ensures Shows(Fresh().told, [])
  {
    TerminatedAt(Zeros(MAX_LOGIN_NAME), 0);
    TerminatedAt(Zeros(FTP_MAX_PATH), 0);
    TerminatedAt(Zeros(FTP_MAX_NAME), 0);
  }

  lemma {:induction false} StepShows(cap: int, s: State, step: Step, p: nat, said: seq<Message>)
    requires Enabled(cap, s, step) && (p in s.children ==> Shows(s.children[p].told, said))
    ensures var t := Apply(cap, s, step); p in t.children ==> Shows(t.children[p].told, Heard(step, p, said))
  {
    match step
    case Fork(q) => FreshShowsNothing();
    case Say(q, m) => if q == p { ShowsMore(s.children[p].told, s.children[p].pool, said, m); }
    case _ =>
  }

  lemma {:induction false} RunShows(cap: int, s: State, steps: seq<Step>, p: nat, said: seq<Message>)
    requires p in s.children ==> Shows(s.children[p].told, said)
    ensures var t := Run(cap, s, steps); p in t.children ==> Shows(t.children[p].told, Spoken(cap, s, steps, p, said))
    decreases |steps|
  {
    if steps != [] {
      if Enabled(cap, s, steps[0]) {
        StepShows(cap, s, steps[0], p, said);
        RunShows(cap, Apply(cap, s, steps[0]), steps[1..], p, Heard(steps[0], p, said));
      } else {
        RunShows(cap, s, steps[1..], p, said);
      }
    }
  }

  /** In every run, once the frames on the way have been read, and with an empty pipe already now, the
      record of each listed client shows the last login name, directory, file name and transfer that its
      child has said since it was forked. */
  lemma {:induction false} RecordsShowTheLastWord(cap: int, steps: seq<Step>, i: nat)
    requires i < |Run(cap, Init(), steps).list|
    ensures var s := Run(cap, Init(), steps);
            var c := s.list[i];
            && Frames(s.pipe).Some?
            && Shows(ViewOf(Absorb(c.rec, Frames(s.pipe).value, c.pid)), Spoken(cap, Init(), steps, c.pid, []))
            && (s.pipe == [] ==> Shows(ViewOf(c.rec), Spoken(cap, Init(), steps, c.pid, [])))
  {
    RecordsFollowTheChildren(cap, steps, i);
    RunShows(cap, Init(), steps, Run(cap, Init(), steps).list[i].pid, []);
  }

  /** A message adds one frame to the pipe, of its sender and kind, behind all others; only a directory of
      1024 bytes or more and a file name of more than 256 are not sent. */
  lemma {:induction false} SayAddsOneFrame(cap: int, s: State, p: nat, m: Message)
    requires Inv(cap, s) && Enabled(cap, s, Say(p, m))
    ensures Frames(Apply(cap, s, Say(p, m)).pipe).Some?
    ensures var before := Frames(s.pipe).value;
            var after := Frames(Apply(cap, s, Say(p, m)).pipe).value;
            if (m.Moved? && !Moves(m)) || (m.Started? && !Starts(m)) then after == before
            else |after| == |before| + 1 && after[..|before|] == before && IsFrameOf(after[|before|], p, m)
  {
    if Sendable(m) {
      FramesAppend(s.pipe, Packet(p, KindOfMessage(m), Payload(s.children[p].pool, m)));
    }
  }

  ghost predicate IsFrameOf(f: Frame, p: nat, m: Message)
  {
    && f.pid == p
    && match m
       case Named(_) => f.kind.Login? && |f.payload| == 64
       case Moved(_) => f.kind.Chdir? && |f.payload| == 1024
       case Started(_) => f.kind.XferStart? && |f.payload| == 256
       case Progress(_) => f.kind.Xfer? && |f.payload| == 72
       case Stopped(_) => f.kind.XferStop? && |f.payload| == 72
  }

  // ---- What can be reached --------------------------------------------------------

  /** Forks and additions of the pids 1 to n. */
  function Arrivals(n: nat): seq<Step>
  {
    if n == 0 then [] else Arrivals(n - 1) + [Fork(n), Add]
  }

  lemma {:induction false} RunAppend(cap: int, s: State, a: seq<Step>, b: seq<Step>)
    ensures Run(cap, s, a + b) == Run(cap, Run(cap, s, a), b)
    decreases |a|
  {
    if a == [] {
      assert a + b == b;
    } else {
      assert (a + b)[0] == a[0] && (a + b)[1..] == a[1..] + b;
      RunAppend(cap, if Enabled(cap, s, a[0]) then Apply(cap, s, a[0]) else s, a[1..], b);
    }
  }

  /** Every number of clients up to the cap is served at once, and any number without one. */
  lemma {:induction false} TheCapIsReached(cap: int, n: nat)
    requires n < PID_LIMIT && (cap == NO_LIMIT || n <= cap)
    ensures var s := Run(cap, Init(), Arrivals(n));
            && |s.list| == |s.children| == n && s.control == Loop && s.pipe == [] && s.dead == {}
            && forall p :: p in s.children <==> 1 <= p <= n
  {
    if n > 0 {
      TheCapIsReached(cap, n - 1);
      var s := Run(cap, Init(), Arrivals(n - 1));
      RunAppend(cap, Init(), Arrivals(n - 1), [Fork(n), Add]);
      OneArrives(cap, s, n);
    }
  }

  lemma {:induction false} OneArrives(cap: int, s: State, pid: nat)
    requires s.control == Loop && s.pipe == [] && (cap == NO_LIMIT || |s.list| < cap)
    requires 0 < pid < PID_LIMIT && pid !in s.children
    ensures Run(cap, s, [Fork(pid), Add]) ==
            s.(list := s.list + [Client(pid, NewRecord())], children := s.children[pid := Fresh()])
  {
    assert Frames([]) == Some([]);
    RunFirst(cap, s, [Fork(pid), Add]);
    var t := s.(control := Forked(pid), children := s.children[pid := Fresh()]);
    assert [Fork(pid), Add][1..] == [Add];
    LastStep(cap, t, [Add], s.(list := s.list + [Client(pid, NewRecord())], children := s.children[pid := Fresh()]));
  }

  /** The daemon ends exactly when it looks at signals of which none is SIGCHLD: one that comes together
      with a SIGCHLD is cleared with it and lost. Once it has ended, it forks, lists and reads no more. */
  lemma {:induction false} EndsIff(cap: int, s: State, step: Step)
    requires s.control != Exited && Enabled(cap, s, step)
    ensures Apply(cap, s, step).control == Exited <==> step.HandleSignal? && s.flags != {} && CHLD !in s.flags
    ensures step.HandleSignal? ==> Apply(cap, s, step).flags == {}
  {}

  lemma {:induction false} EndedIsEnded(cap: int, s: State, steps: seq<Step>)
    requires s.control == Exited
    ensures var t := Run(cap, s, steps); t.control == Exited && t.list == s.list && t.children.Keys == s.children.Keys
    decreases |steps|
  {
    if steps != [] {
      var t := if Enabled(cap, s, steps[0]) then Apply(cap, s, steps[0]) else s;
      assert t.children.Keys == s.children.Keys;
      EndedIsEnded(cap, t, steps[1..]);
    }
  }
}
