/** child.c, util.c seek_pipe and state.c recv_state in place: a linked list with a head node, and
    the pipe it is fed from. Each method does what the step system of module Daemon says. */
module ChildList {
  import opened CStrings
  import opened Wire
  import opened Daemon

  /** A sequence without its k-th element. */
  ghost function Without<T>(s: seq<T>, k: nat): (r: seq<T>)
    requires k < |s|
    ensures |r| == |s| - 1 && forall i | 0 <= i < |r| :: r[i] == s[if i < k then i else i + 1]
  {
    s[..k] + s[k + 1..]
  }

  class Node {
    var next: Node?
    var pid: int
    var rec: Record

    /** The client a node stands for; only the head has a negative pid. */
    ghost function Entry(): Client
      reads this
    {
      Client(if pid < 0 then 0 else pid, rec)
    }

    /** new_client; the head of a list is a node too, with pid -1. */
    constructor (pid: int)
      ensures next == null && this.pid == pid && rec == NewRecord()
    {
      next, this.pid, rec := null, pid, NewRecord();
    }
  }

  class ChildList {
    const head: Node
    ghost var spine: seq<Node>

    ghost predicate Linked()
      reads this, spine
    {
      && |spine| > 0 && spine[|spine| - 1].next == null
      && forall i {:trigger spine[i].next} | 0 <= i < |spine| - 1 :: spine[i].next == spine[i + 1]
    }

    ghost predicate Valid()
      reads this, spine
    {
      && |spine| > 0 && spine[0] == head
      && (forall i, j | 0 <= i < j < |spine| :: spine[i] != spine[j])
      && Linked()
      && (forall i | 1 <= i < |spine| :: spine[i].pid >= 0)
    }

    ghost function Contents(): (c: seq<Client>)
      requires Valid()
      reads this, spine
      ensures |c| == |spine| - 1
      ensures forall i | 0 <= i < |c| :: c[i] == spine[i + 1].Entry()
    {
      seq(|spine| - 1, i requires 0 <= i < |spine| - 1 reads this, spine => spine[i + 1].Entry())
    }

    constructor ()
      ensures Valid() && fresh(spine) && Contents() == []
    {
      head := new Node(-1);
      new;
      spine := [head];
    }

    method AddClient(n: Node)
      requires Valid() && n !in spine && n.next == null && n.pid >= 0
      modifies this, spine
      ensures Valid() && spine == old(spine) + [n]
      ensures Contents() == old(Contents()) + [n.Entry()]
    {
      var list := head;
      ghost var k := 0;
      while list.next != null
        invariant 0 <= k < |spine| && list == spine[k]
        decreases |spine| - k
      {
        list, k := list.next, k + 1;
      }
      list.next := n;
      spine := spine + [n];
    }

    /** remove_client. The loop has no test for the end of the list: the pid has to be there. */
    method RemoveClient(pid: nat)
      requires Valid() && Listed(Contents(), pid)
      modifies this, spine
      ensures Valid() && Remove(old(Contents()), pid) == Some(Contents())
    {
      FindsIt(Contents(), pid);
      var prev, k := FindBefore(pid);
      Unlink(prev, k);
    }

    method Unlink(prev: Node, ghost k: nat)
      requires Valid() && k + 1 < |spine| && prev == spine[k]
      modifies this, prev
      ensures Valid() && Contents() == Without(old(Contents()), k)
    {
      ghost var was, all := spine, Contents();
      Relink(prev, k);
      assert forall i | 0 <= i < |all| :: all[i] == was[i + 1].Entry();
      ContentsWithout(was, k, all);
    }

    method Relink(prev: Node, ghost k: nat)
      requires Valid() && k + 1 < |spine| && prev == spine[k]
      modifies this, prev`next
      ensures Valid() && spine == Without(old(spine), k + 1)
    {
      assert forall i | 0 <= i < |spine| && spine[i] == prev :: i == k;
      prev.next := prev.next.next;
      spine := Without(spine, k + 1);
    }

    lemma {:induction false} ContentsWithout(was: seq<Node>, k: nat, all: seq<Client>)
      requires Valid() && k + 1 < |was| && spine == Without(was, k + 1)
      requires |all| == |was| - 1 && forall i | 0 <= i < |all| :: all[i] == was[i + 1].Entry()
      ensures Contents() == Without(all, k)
    {
      ghost var rest := Without(all, k);
      forall i | 0 <= i < |rest| ensures rest[i] == spine[i + 1].Entry() {}
    }

    /** The walk to the node before the one with this pid. */
    method FindBefore(pid: nat) returns (prev: Node, ghost k: nat)
      requires Valid() && Find(Contents(), pid) < |Contents()|
      ensures k == Find(Contents(), pid) && prev == spine[k]
    {
      var list: Node := head.next;
      prev, k := head, 0;
      while list.pid != pid
        invariant 0 <= k <= Find(Contents(), pid) && prev == spine[k] && list == spine[k + 1]
        decreases |spine| - k
      {
        assert Contents()[k] == list.Entry();
        prev, list, k := list, list.next, k + 1;
      }
      assert Contents()[k] == list.Entry();
    }

    method CountClients() returns (n: nat)
      requires Valid()
      ensures n == |Contents()|
    {
      n := 0;
      var list := head.next;
      while list != null
        invariant 0 <= n < |spine| && list == spine[n].next
        decreases |spine| - n
      {
        list := list.next;
        n := n + 1;
      }
    }

    method FindClient(pid: nat) returns (child: Node?, ghost at: nat)
      requires Valid()
      ensures at == Find(Contents(), pid)
      ensures if at == |Contents()| then child == null else child == spine[at + 1]
    {
      child, at := head.next, 0;
      while child != null
        invariant 0 <= at < |spine| && child == spine[at].next
        invariant forall k | 0 <= k < at :: Contents()[k].pid != pid
        decreases |spine| - at
      {
        assert Contents()[at] == child.Entry();
        if child.pid == pid {
          break;
        }
        child, at := child.next, at + 1;
      }
      FirstIs(Contents(), pid, at);
    }

    lemma {:induction false} FirstIs(list: seq<Client>, pid: nat, at: nat)
      requires at <= |list| && (at < |list| ==> list[at].pid == pid)
      requires forall k | 0 <= k < at :: list[k].pid != pid
      ensures Find(list, pid) == at
    {}
  }

  /** The read end of the pipe. */
  class Pipe {
    var bytes: Bytes

    constructor ()
      ensures bytes == []
    {
      bytes := [];
    }

    /** read(2): the bytes asked for, or as many as there are. */
    method Read(n: nat) returns (got: Bytes)
      modifies this
      ensures got == old(bytes)[..Min(n, |old(bytes)|)] && bytes == old(bytes)[|got|..]
    {
      got := bytes[..Min(n, |bytes|)];
      bytes := bytes[|got|..];
    }

    /** seek_pipe */
    method Seek(offset: nat)
      modifies this
      ensures bytes == old(bytes)[Min(offset, |old(bytes)|)..]
    {
      if offset == 0 {
        return;
      }
      var blocks, remainder := offset / SEEK_BUFFER_SIZE, offset % SEEK_BUFFER_SIZE;
      var i := 0;
      while i < blocks
        invariant 0 <= i <= blocks
        invariant bytes == old(bytes)[Min(i * SEEK_BUFFER_SIZE, |old(bytes)|)..]
      {
        var buffer := Read(SEEK_BUFFER_SIZE);
        i := i + 1;
      }
      var buffer := Read(remainder);
    }
  }

  const SEEK_BUFFER_SIZE := 1024

  /** A short read overwrites only the front of a field. */
  function Overwrite(field: Bytes, got: Bytes): (r: Bytes)
    requires |got| <= |field|
    ensures |r| == |field|
  {
    got + field[|got|..]
  }

  /** recv_state: one frame off the pipe and into the record of its sender, if still listed. */
  method RecvState(pipe: Pipe, list: ChildList) returns (ok: bool)
    requires list.Valid()
    modifies pipe, list.spine
    ensures list.Valid() && list.spine == old(list.spine)
    ensures ok <==> HeaderOf(old(pipe.bytes)).Some?
    ensures ok && |old(pipe.bytes)| >= HEADER_SIZE + BufSize(HeaderOf(old(pipe.bytes)).value.1) ==>
              var r := RecvByParts(old(list.Contents()), old(pipe.bytes));
              list.Contents() == r.0 && pipe.bytes == r.1
  {
    var header := ReadHeader(pipe);
    if header == None {
      return false;
    }
    var (pid, kind) := header.value;
    ReceivePayload(pipe, list, pid, kind);
    ok := true;
  }

  /** The second half of recv_state: skip the payload of an unknown client, read a known one's. */
  method ReceivePayload(pipe: Pipe, list: ChildList, pid: nat, kind: Kind)
    requires list.Valid()
    modifies pipe, list.spine
    ensures list.Valid() && list.spine == old(list.spine)
    ensures var b := old(pipe.bytes);
            |b| >= BufSize(kind) ==>
              && list.Contents() == Update(old(list.Contents()), Packet(pid, kind, b[..BufSize(kind)]))
              && pipe.bytes == b[BufSize(kind)..]
  {
    var child, at := list.FindClient(pid);
    if child == null {
      pipe.Seek(BufSize(kind));
    } else {
      Deliver(pipe, list, child, at, kind);
    }
  }

  /** What the header of the first frame says, if it is whole, has the magic and a known type. */
  function HeaderOf(b: Bytes): Option<(nat, Kind)>
  {
    if |b| < HEADER_SIZE || Unword(b[4..8]) != STATE_MAGIC then None
    else match KindOf(Unword(b[8..12])) case None => None case Some(k) => Some((Unword(b[0..4]), k))
  }

  method ReadHeader(pipe: Pipe) returns (header: Option<(nat, Kind)>)
    modifies pipe
    ensures header == HeaderOf(old(pipe.bytes))
    ensures header.Some? ==> pipe.bytes == old(pipe.bytes)[HEADER_SIZE..]
  {
    var state := pipe.Read(HEADER_SIZE);
    ghost var b := old(pipe.bytes);
    if |state| == HEADER_SIZE {
      assert state[0..4] == b[0..4] && state[4..8] == b[4..8] && state[8..12] == b[8..12];
    }
    if |state| < HEADER_SIZE || Unword(state[4..8]) != STATE_MAGIC {
      return None;
    }
    var kind := KindOf(Unword(state[8..12]));
    if kind == None {
      return None;
    }
    header := Some((Unword(state[0..4]), kind.value));
  }

  function RecvByParts(list: seq<Client>, b: Bytes): (seq<Client>, Bytes)
    requires HeaderOf(b).Some? && |b| >= HEADER_SIZE + BufSize(HeaderOf(b).value.1)
  {
    var (pid, kind) := HeaderOf(b).value;
    var payload := b[HEADER_SIZE..];
    (Update(list, Packet(pid, kind, payload[..BufSize(kind)])), payload[BufSize(kind)..])
  }

  /** Header first, payload second is what the step system does with a frame in one go. */
  lemma {:induction false} RecvIsByParts(list: seq<Client>, b: Bytes)
    ensures Recv(list, b).Some? <==> HeaderOf(b).Some? && |b| >= HEADER_SIZE + BufSize(HeaderOf(b).value.1)
    ensures Recv(list, b).Some? ==> Recv(list, b).value == RecvByParts(list, b)
  {
    if Decode(b).Some? {
      var k := Decode(b).value.kind;
      assert b[HEADER_SIZE..][..BufSize(k)] == b[HEADER_SIZE..HEADER_SIZE + BufSize(k)];
      assert b[HEADER_SIZE..][BufSize(k)..] == b[HEADER_SIZE + BufSize(k)..];
    }
  }

  /** The payload of a frame goes into the record at position `at` of the list. */
  method Deliver(pipe: Pipe, list: ChildList, child: Node, ghost at: nat, kind: Kind)
    requires list.Valid() && at < |list.Contents()| && child == list.spine[at + 1]
    modifies pipe, list.spine
    ensures list.Valid() && list.spine == old(list.spine)
    ensures var b := old(pipe.bytes);
            var c := old(list.Contents());
            |b| >= BufSize(kind) ==>
              && list.Contents() == c[at := Client(c[at].pid, Receive(c[at].rec, kind, b[..BufSize(kind)]))]
              && pipe.bytes == b[BufSize(kind)..]
  {
    ReceiveInto(pipe, child, kind);
  }

  /** The recv functions of state.c. */
  method ReceiveInto(pipe: Pipe, child: Node, kind: Kind)
    modifies pipe, child`rec
    ensures |old(pipe.bytes)| >= BufSize(kind) ==>
              && child.rec == Receive(old(child.rec), kind, old(pipe.bytes)[..BufSize(kind)])
              && pipe.bytes == old(pipe.bytes)[BufSize(kind)..]
  {
    var got := pipe.Read(BufSize(kind));
    match kind
    case Login => child.rec := child.rec.(login := Overwrite(child.rec.login, got));
    case Chdir => child.rec := child.rec.(path := Overwrite(child.rec.path, got));
    case XferStart =>
      child.rec := child.rec.(filename := Overwrite(child.rec.filename, got)[FTP_MAX_NAME - 1 := NUL], busy := true);
    case Xfer => child.rec := child.rec.(info := Overwrite(child.rec.info, got));
    case XferStop => child.rec := child.rec.(info := Overwrite(child.rec.info, got), busy := false);
  }

  /** The state of the parent process: its list, signal_flag and the configured cap. */
  class Master {
    const list: ChildList
    const max_clients: int
    var flags: set<Signal>

    constructor (max_clients: int)
      ensures list.Valid() && list.Contents() == [] && flags == {} && this.max_clients == max_clients
    {
      list := new ChildList();
      this.max_clients, flags := max_clients, {};
    }

    /** signal_handler */
    method Catch(sig: Signal)
      modifies `flags
      ensures flags == old(flags) + {sig}
    {
      flags := flags + {sig};
    }

    /** pre_server: the test a Fork step has to pass. */
    method Admit() returns (ok: bool)
      requires list.Valid()
      ensures ok <==> max_clients == NO_LIMIT || |list.Contents()| < max_clients
    {
      var count := list.CountClients();
      ok := !(max_clients != NO_LIMIT && count >= max_clients);
    }

    /** daemon_handle_signal, with the child waitpid returned, if any. */
    method HandleSignal(waited: Option<nat>) returns (quit: bool)
      requires list.Valid()
      requires CHLD in flags ==> waited.Some? && Listed(list.Contents(), waited.value)
      modifies `flags, list, list.spine
      ensures list.Valid() && flags == {}
      ensures quit <==> old(flags) != {} && CHLD !in old(flags)
      ensures if CHLD in old(flags) then Remove(old(list.Contents()), waited.value) == Some(list.Contents())
              else list.Contents() == old(list.Contents())
    {
      if CHLD in flags {
        flags := {};
        list.RemoveClient(waited.value);
      }
      quit := false;
      if flags != {} {
        flags := {};
        quit := true;
      }
    }
  }
}
