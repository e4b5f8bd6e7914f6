/** core.c transfer_file, store_file and doretr with throttle.c throttle_pause inside: which bytes
    cross the data connection, what is counted, and how fast. */
module Transfer {
  import opened CStrings
  import opened Throttle

  type Bytes = seq<char>

  datatype Status = Success | Quit | Abort | Error

  /** What one splice call meets: it moves its block, or fails as errno says, or finds no data. */
  datatype Event = Moves | Interrupted(quit: bool) | Reset | Failure | AtEnd

  datatype TimeSpec = TimeSpec(sec: nat, nsec: nat)

  /** nanosleep was called, first for so many nanoseconds, and then only for less and less. */
  ghost predicate AskedFor(before: seq<nat>, after: seq<nat>, ns: nat)
  {
    && |before| < |after| && after[..|before|] == before && after[|before|] == ns
    && forall i | |before| < i < |after| :: after[i] < after[i - 1]
  }

  function Nanos(t: TimeSpec): nat { t.sec * 1000000000 + t.nsec }

  /** A clock that any call may find further on, never further back. */
  class Clock {
    var ns: nat
    ghost var asked: seq<nat>   // what every call of nanosleep was asked for, in nanoseconds

    constructor () { ns, asked := 0, []; }

    ghost function Us(): nat reads this { ns / 1000 }

    /** gettimeofday */
    method Read() returns (us: nat)
      modifies this
      ensures ns >= old(ns) && us == Us() && asked == old(asked)
    {
      var passed: nat :| true;
      ns := ns + passed;
      us := ns / 1000;
    }

    /** nanosleep: an interrupted sleep reports strictly less left than was asked for. */
    method Nanosleep(slp: TimeSpec) returns (interrupted: bool, rem: TimeSpec)
      modifies this
      ensures interrupted ==> Nanos(rem) < Nanos(slp) && ns >= old(ns) + Nanos(slp) - Nanos(rem)
      ensures !interrupted ==> ns >= old(ns) + Nanos(slp)
      ensures asked == old(asked) + [Nanos(slp)]
    {
      asked := asked + [Nanos(slp)];
      var passed: nat :| true;
      ns := ns + passed;
      interrupted := 0 < passed < Nanos(slp);
      rem := TimeSpec(0, 0);
      if interrupted {
        rem := TimeSpec(0, Nanos(slp) - passed);
      } else if passed < Nanos(slp) {
        ns := ns + Nanos(slp);
      }
    }
  }

  /** The first block count the int `blocks` of transfer_file cannot hold is 2^31. */
  function Blocks(count: nat): nat { Natural(Int32(count / BLOCK)) }

  function Natural(n: int): nat { if n < 0 then 0 else n }

  /** What a completed transfer of `count` bytes from `offset` puts on the wire. */
  function Sent(file: Bytes, offset: nat, count: nat): Bytes
    requires offset + count <= |file|
  {
    BlocksFit(count);
    file[offset..offset + Blocks(count) * BLOCK] + file[offset + count - count % BLOCK..offset + count]
  }

  lemma {:induction false} BlocksFit(count: nat)
    ensures Blocks(count) * BLOCK <= count - count % BLOCK
    ensures Blocks(count) * BLOCK == count - count % BLOCK <==> count < INT_LIMIT * BLOCK
  {
    Int32Facts(count / BLOCK);
    assert count == (count / BLOCK) * BLOCK + count % BLOCK;
  }

  /** A completed transfer is the rest of the file, once and in order, exactly when its length is
      below 2^43, so that the number of blocks fits the counter. */
  lemma {:induction false} SentIsTheRestIff(file: Bytes, offset: nat)
    requires offset <= |file|
    ensures Sent(file, offset, |file| - offset) == file[offset..] <==> |file| - offset < INT_LIMIT * BLOCK
  {
    var count := |file| - offset;
    BlocksFit(count);
    var mid := offset + count - count % BLOCK;
    assert |Sent(file, offset, count)| == Blocks(count) * BLOCK + count % BLOCK;
    assert file[offset..mid] + file[mid..] == file[offset..];
  }

  /** Bytes no write has reached read as zero. */
  function Padded(file: Bytes, offset: nat): (r: Bytes)
    ensures |r| == if |file| < offset then offset else |file|
  {
    if |file| < offset then file + seq(offset - |file|, _ => NUL) else file
  }

  // ---- How a transfer ends --------------------------------------------------------

  /** What ends the retries of one splice, and what is left for the next: interruptions by signals
      that do not end the session are passed over. */
  function Meet(events: seq<Event>): (m: (Event, seq<Event>))
  {
    if events == [] then (Moves, [])
    else if events[0] == Interrupted(false) then Meet(events[1..])
    else (events[0], events[1..])
  }

  /** What ends the retries of the k-th splice. */
  function Meeting(events: seq<Event>, k: nat): Event
    decreases k
  {
    if k == 0 then Meet(events).0 else Meeting(Meet(events).1, k - 1)
  }

  function StatusOf(e: Event): Status
  {
    match e case Interrupted(_) => Quit case Reset => Abort case Failure => Error case _ => Success
  }

  /** The status of a transfer, and whether its last splice moved anything. */
  datatype Ending = Ending(status: Status, full: bool)

  /** How a transfer of so many blocks and a remainder ends, from what its splices meet and whether a
      signal ends the session after a block. */
  function EndOf(events: seq<Event>, quits: seq<bool>, blocks: nat): Ending
    decreases blocks
  {
    var (e, rest) := Meet(events);
    if !StatusOf(e).Success? then Ending(StatusOf(e), true)
    else if blocks == 0 then Ending(Success, !e.AtEnd?)
    else if e.AtEnd? then Ending(Abort, true)
    else if quits != [] && quits[0] then Ending(Quit, true)
    else EndOf(rest, if quits == [] then [] else quits[1..], blocks - 1)
  }

  /** A transfer that succeeds has sent its remainder exactly when the splice of it did not meet the
      end of the file. */
  lemma {:induction false} FullIff(events: seq<Event>, quits: seq<bool>, blocks: nat)
    requires EndOf(events, quits, blocks).status.Success?
    ensures EndOf(events, quits, blocks).full <==> Meeting(events, blocks) != AtEnd
    ensures AtEnd !in events ==> EndOf(events, quits, blocks).full
    decreases blocks
  {
    MeetIsThere(events);
    if blocks > 0 { FullIff(Meet(events).1, if quits == [] then [] else quits[1..], blocks - 1); }
  }

  lemma {:induction false} MeetIsThere(events: seq<Event>)
    ensures Meet(events).0 == Moves || Meet(events).0 in events
    ensures forall e | e in Meet(events).1 :: e in events
  {
    if events != [] && events[0] == Interrupted(false) { MeetIsThere(events[1..]); }
  }

  // ---- Where it ends --------------------------------------------------------------

  /** The first n splices moved their block, and no signal ended the session behind any but the last. */
  ghost predicate Uneventful(events: seq<Event>, quits: seq<bool>, n: nat)
  {
    (forall j: nat | j < n :: Meeting(events, j) == Moves) && (forall j: nat | j + 1 < n && j < |quits| :: !quits[j])
  }

  ghost predicate QuitsBehind(quits: seq<bool>, n: nat) { 0 < n <= |quits| && quits[n - 1] }

  /** A download ends with the first thing that ends it: behind its n-th block, or at its next splice. */
  ghost predicate RetrEnds(events: seq<Event>, quits: seq<bool>, blocks: nat, n: nat, status: Status, full: bool)
  {
    && n <= blocks && Uneventful(events, quits, n)
    && if QuitsBehind(quits, n) then status == Quit
       else
         match Meeting(events, n)
         case Interrupted(_) => status == Quit
         case Reset => status == Abort
         case Failure => status == Error
         case AtEnd => if n < blocks then status == Abort else status == Success && !full
         case Moves => n == blocks && status == Success && full
  }

  lemma {:induction false} EndOfIs(events: seq<Event>, quits: seq<bool>, blocks: nat) returns (n: nat)
    ensures RetrEnds(events, quits, blocks, n, EndOf(events, quits, blocks).status, EndOf(events, quits, blocks).full)
    decreases blocks
  {
    var (e, rest) := Meet(events);
    n := 0;
    if e == Moves && blocks > 0 {
      if quits != [] && quits[0] {
        n := 1;
      } else {
        var tail := if quits == [] then [] else quits[1..];
        var m := EndOfIs(rest, tail, blocks - 1);
        n := m + 1;
        forall j: nat | j < n ensures Meeting(events, j) == Moves {
          assert j > 0 ==> Meeting(events, j) == Meeting(rest, j - 1);
        }
        assert forall j: nat | 0 < j < |quits| :: quits[j] == tail[j - 1];
      }
    }
  }

  /** An upload likewise; it also ends when there is nothing left to store. */
  ghost predicate StorEnds(events: seq<Event>, quits: seq<bool>, n: nat, drained: bool, status: Status)
  {
    && Uneventful(events, quits, n)
    && if QuitsBehind(quits, n) then status == Quit
       else
         match Meeting(events, n)
         case Interrupted(_) => status == Quit
         case Reset => status == Abort
         case Failure => status == Error
         case AtEnd => status == Success
         case Moves => status == Success && drained
  }

  /** No number of interruptions that do not end the session keeps an upload from storing all there is. */
  lemma {:induction false} HarmlessStores(events: seq<Event>, quits: seq<bool>, n: nat, drained: bool, status: Status)
    requires Harmless(events) && true !in quits && StorEnds(events, quits, n, drained, status)
    ensures status == Success && drained
  {
    HarmlessMeeting(events, n);
  }

  lemma {:induction false} HarmlessMeeting(events: seq<Event>, k: nat)
    requires Harmless(events)
    ensures Meeting(events, k) == Moves
    decreases k
  {
    MeetsHarmless(events);
    if k > 0 { HarmlessMeeting(Meet(events).1, k - 1); }
  }

  /** What is left of the events after k splices have been through. */
  function Left(events: seq<Event>, k: nat): seq<Event>
    decreases k
  {
    if k == 0 then events else Left(Meet(events).1, k - 1)
  }

  lemma {:induction false} LeftMore(events: seq<Event>, k: nat)
    ensures Meeting(events, k) == Meet(Left(events, k)).0 && Left(events, k + 1) == Meet(Left(events, k)).1
    decreases k
  {
    if k > 0 { LeftMore(Meet(events).1, k - 1); }
  }

  /** An upload under way: n blocks stored, these events and answers still to come. */
  ghost predicate Going(events0: seq<Event>, quits0: seq<bool>, n: nat, events: seq<Event>, quits: seq<bool>)
  {
    && Uneventful(events0, quits0, n) && !QuitsBehind(quits0, n)
    && Meet(Left(events0, n)) == Meet(events)
    && quits == if n <= |quits0| then quits0[n..] else []
  }

  function Rest<T>(s: seq<T>): seq<T> { if s == [] then [] else s[1..] }

  /** What a splice of an upload meets, when there is data left or none. */
  function MeetOne(events: seq<Event>, drained: bool): Event
  {
    if events != [] && !events[0].Moves? then events[0] else if drained then AtEnd else Moves
  }

  lemma {:induction false} Retries(events0: seq<Event>, quits0: seq<bool>, n: nat, events: seq<Event>, quits: seq<bool>)
    requires Going(events0, quits0, n, events, quits) && events != [] && events[0] == Interrupted(false)
    ensures Going(events0, quits0, n, Rest(events), quits)
  {}

  lemma {:induction false} Ends(events0: seq<Event>, quits0: seq<bool>, n: nat, events: seq<Event>, quits: seq<bool>,
                                drained: bool)
    requires Going(events0, quits0, n, events, quits)
    requires MeetOne(events, drained) != Interrupted(false) && !MeetOne(events, drained).Moves?
    ensures StorEnds(events0, quits0, n, drained, StatusOf(MeetOne(events, drained)))
  {
    LeftMore(events0, n);
  }

  lemma {:induction false} Stores(events0: seq<Event>, quits0: seq<bool>, n: nat, events: seq<Event>, quits: seq<bool>,
                                  drained: bool)
    requires Going(events0, quits0, n, events, quits) && (events == [] || events[0].Moves?)
    ensures if quits != [] && quits[0] then StorEnds(events0, quits0, n + 1, drained, Quit)
            else Going(events0, quits0, n + 1, Rest(events), Rest(quits))
  {
    LeftMore(events0, n);
    assert n < |quits0| ==> quits[0] == quits0[n];
  }

  /** Nothing happens to the next splice calls but interruptions by signals that do not end the session. */
  predicate Harmless(events: seq<Event>)
  {
    forall i | 0 <= i < |events| :: events[i] == Moves || events[i] == Interrupted(false)
  }

  /** No number of interruptions that do not end the session keeps a transfer from succeeding. */
  lemma {:induction false} HarmlessSucceeds(events: seq<Event>, quits: seq<bool>, blocks: nat)
    requires Harmless(events) && true !in quits
    ensures EndOf(events, quits, blocks) == Ending(Success, true)
    decreases blocks
  {
    MeetsHarmless(events);
    if blocks > 0 { HarmlessSucceeds(Meet(events).1, if quits == [] then [] else quits[1..], blocks - 1); }
  }

  lemma {:induction false} MeetsHarmless(events: seq<Event>)
    requires Harmless(events)
    ensures Meet(events).0 == Moves && Harmless(Meet(events).1)
  {
    if events != [] && events[0] == Interrupted(false) { MeetsHarmless(events[1..]); }
  }

  /** A new file after the first n bytes of `data` were written from `offset` on. */
  function Placed(data: Bytes, n: nat, offset: nat): (r: Bytes)
    requires n <= |data|
    ensures |r| == if n == 0 then 0 else offset + n
  {
    if n == 0 then [] else Padded([], offset) + data[..n]
  }

  /** An upload leaves its bytes where it was told to start, and zeros in front of them. */
  lemma {:induction false} PlacedIs(data: Bytes, n: nat, offset: nat)
    requires 0 < n <= |data|
    ensures Placed(data, n, offset)[offset..] == data[..n]
    ensures forall i | 0 <= i < offset :: Placed(data, n, offset)[i] == '\0'
  {
    assert [] + seq(offset, _ => NUL) == seq(offset, _ => NUL);
  }

  lemma {:induction false} WrittenStep(data: Bytes, n: nat, k: nat, offset: nat)
    requires 0 < k && n + k <= |data|
    ensures Padded(Placed(data, n, offset), offset + n) + data[n..][..k] == Placed(data, n + k, offset)
    ensures data[n..][k..] == data[n + k..]
  {
    var now := data[n..][..k];
    assert data[..n] + now == data[..n + k];
    if n == 0 {
      assert Placed(data, 0, offset) == [] && now == data[..k];
    } else {
      assert Padded(Placed(data, n, offset), offset + n) == Placed(data, n, offset);
      Joined(Padded([], offset), data[..n], now);
    }
  }

  lemma {:induction false} Prefixed(w: Bytes, x: Bytes, y: Bytes)
    ensures w + x == w + y <==> x == y
  {
    assert (w + x)[|w|..] == x && (w + y)[|w|..] == y;
  }

  lemma {:induction false} Joined(w: Bytes, x: Bytes, y: Bytes)
    ensures w + x + y == w + (x + y)
  {}

  function Sum(lens: seq<nat>): nat
  {
    if lens == [] then 0 else Sum(lens[..|lens| - 1]) + lens[|lens| - 1]
  }

  class Channel {
    const clock: Clock
    const rate: int                 // config.throttle_rate
    var wire: Bytes                 // bytes sent over data connections, all transfers
    var events: seq<Event>          // what the next splice calls will meet; then they all move
    var quits: seq<bool>            // answers of server_handle_signal after a block; then never
    var xfer_start: nat
    var xfer_probe: nat
    var xfer_len: nat
    var probe_len: nat
    var restart_pos: nat
    var total_down: nat
    ghost var downloads: seq<nat>   // xfer_len of every RETR that reached its transfer
    var incoming: Bytes             // what the client of a STOR has still to send
    var stored: Bytes               // the file a STOR has created
    var total_up: nat

    constructor (rate: int, events: seq<Event>, quits: seq<bool>)
      ensures Counted() && this.rate == rate && wire == [] && restart_pos == 0 && fresh(clock)
      ensures this.events == events && this.quits == quits && downloads == []
    {
      clock := new Clock();
      this.rate, this.events, this.quits := rate, events, quits;
      wire, xfer_start, xfer_probe, xfer_len, probe_len := [], 0, 0, 0, 0;
      restart_pos, total_down, downloads := 0, 0, [];
      incoming, stored, total_up := [], [], 0;
    }

    /** total_down is the sum of what every RETR moved. */
    ghost predicate Counted()
      reads this
    {
      total_down == Sum(downloads)
    }

    ghost function Gauge(): Meter reads this { Meter(xfer_probe, probe_len) }

    /** The turns so far account for the window, the bytes and the time. */
    ghost predicate Logged(turns: seq<Turn>)
      reads this, clock
    {
      && Schedule(rate, xfer_start, turns) && Gauge() == MeterAfter(xfer_start, turns)
      && xfer_len == Total(turns) && TimeAfter(xfer_start, turns) <= clock.Us()
    }

    /** throttle_pause */
    method Pause() returns (ghost now: nat, ghost again: nat)
      modifies clock, `xfer_probe, `probe_len
      ensures old(clock.Us()) <= now <= again
      ensures again + 1000 * Sleep(rate, old(Gauge()), now) <= clock.Us()
      ensures Gauge() == Next(old(Gauge()), now, again)
      ensures if Sleeps(rate, old(Gauge()), now)
              then AskedFor(old(clock.asked), clock.asked, 1000000 * Sleep(rate, old(Gauge()), now))
              else clock.asked == old(clock.asked)
    {
      ghost var m := Gauge();
      var t := clock.Read();
      now, again := t, t;
      var transfer_size := Int32(probe_len);
      var diff := Int32(MsecDiff(Tv(t), Tv(xfer_probe)));
      if diff < 0 {
        xfer_probe := clock.Read();
        again := xfer_probe;
        return;
      }
      if diff > 500 {
        xfer_probe := clock.Read();
        again := xfer_probe;
        probe_len := 0;
      }
      if rate < 1 {
        return;
      }
      var idealdiff := Quotient(transfer_size, rate);
      if idealdiff < diff {
        return;
      }
      SleepFor(idealdiff - diff);
    }

    /** What follows every splice: its bytes counted, and a pause. */
    method Account(n: nat) returns (ghost t: Turn)
      requires n <= BLOCK
      modifies clock, `xfer_probe, `xfer_len, `probe_len
      ensures xfer_len == old(xfer_len) + n && t.bytes == n && t.after == clock.Us()
      ensures Lasts(rate, old(Gauge()), old(clock.Us()), t)
      ensures Gauge() == Next(Fed(old(Gauge()), n), t.now, t.again)
    {
      xfer_len, probe_len := xfer_len + n, probe_len + n;
      ghost var now, again := Pause();
      t := Turn(n, now, again, clock.Us());
    }

    /** The interrupted-sleep loop, swapping what to sleep with what remains. */
    method SleepFor(ms: nat)
      modifies clock
      ensures clock.Us() >= old(clock.Us()) + 1000 * ms
      ensures AskedFor(old(clock.asked), clock.asked, 1000000 * ms)
    {
      var slp, rem := TimeSpec(ms / 1000, (ms % 1000) * 1000000), TimeSpec(0, 0);
      assert Nanos(slp) == ms * 1000000;
      var interrupted := true;
      while interrupted
        invariant interrupted ==> clock.ns + Nanos(slp) >= old(clock.ns) + ms * 1000000
        invariant !interrupted ==> clock.ns >= old(clock.ns) + ms * 1000000
        invariant if clock.asked == old(clock.asked) then interrupted && Nanos(slp) == 1000000 * ms
                  else AskedFor(old(clock.asked), clock.asked, 1000000 * ms)
                       && (interrupted ==> Nanos(slp) < clock.asked[|clock.asked| - 1])
        decreases interrupted, Nanos(slp)
      {
        interrupted, rem := clock.Nanosleep(slp);
        if interrupted {
          slp, rem := rem, slp;
        }
      }
    }

    /** splice_stream from the file to the data socket: all of the block, or nothing. */
    method Splice(file: Bytes, offset: nat, count: nat) returns (e: Event)
      requires offset + count <= |file|
      modifies `wire, `events
      ensures e == if old(events) == [] then Moves else old(events)[0]
      ensures events == if old(events) == [] then [] else old(events)[1..]
      ensures wire == old(wire) + if e.Moves? then file[offset..offset + count] else []
    {
      e := Moves;
      if events != [] {
        e, events := events[0], events[1..];
      }
      if e.Moves? {
        wire := wire + file[offset..offset + count];
      }
    }

    /** server_handle_signal after a block. */
    method HandleSignal() returns (quit: bool)
      modifies `quits
      ensures quit == (old(quits) != [] && old(quits)[0])
      ensures quits == if old(quits) == [] then [] else old(quits)[1..]
    {
      quit := false;
      if quits != [] {
        quit, quits := quits[0], quits[1..];
      }
    }

    /** The retry loop around one splice. AtEnd is its zero return. */
    method SpliceFully(file: Bytes, offset: nat, count: nat) returns (status: Status, end: bool)
      requires offset + count <= |file|
      modifies `wire, `events
      ensures status == StatusOf(Meet(old(events)).0) && end == Meet(old(events)).0.AtEnd?
      ensures events == Meet(old(events)).1
      ensures wire == old(wire) + if status.Success? && !end then file[offset..offset + count] else []
    {
      var e := Splice(file, offset, count);
      while e.Interrupted?
        invariant wire == old(wire) + if e.Moves? then file[offset..offset + count] else []
        invariant Meet(old(events)) == if e == Interrupted(false) then Meet(events) else (e, events)
        decreases |events| + if e.Interrupted? then 1 else 0
      {
        if e.quit {
          return Quit, false;
        }
        e := Splice(file, offset, count);
      }
      status := match e case Reset => Abort case Failure => Error case _ => Success;
      end := e.AtEnd?;
    }

    /** One turn of the block loop: a block, its bytes counted, a pause. */
    method SendBlock(file: Bytes, pos: nat) returns (status: Status, end: bool, ghost t: Turn)
      requires pos + BLOCK <= |file|
      modifies clock, `wire, `events, `xfer_probe, `xfer_len, `probe_len
      ensures status == StatusOf(Meet(old(events)).0) && end == Meet(old(events)).0.AtEnd?
      ensures events == Meet(old(events)).1
      ensures status.Success? && !end ==>
                && wire == old(wire) + file[pos..pos + BLOCK] && xfer_len == old(xfer_len) + BLOCK
                && t.bytes == BLOCK && t.after == clock.Us() && Lasts(rate, old(Gauge()), old(clock.Us()), t)
                && Gauge() == Next(Fed(old(Gauge()), BLOCK), t.now, t.again)
      ensures !status.Success? || end ==>
                wire == old(wire) && xfer_len == old(xfer_len) && clock.Us() == old(clock.Us())
    {
      t := Turn(0, 0, 0, 0);
      status, end := SpliceFully(file, pos, BLOCK);
      if status.Success? && !end {
        t := Account(BLOCK);
      }
    }

    /** A turn of the block loop keeps the wire and the log right. */
    method SendNext(file: Bytes, offset: nat, i: nat, ghost before: Bytes, ghost turns: seq<Turn>)
      returns (status: Status, end: bool, ghost more: seq<Turn>)
      requires offset + (i + 1) * BLOCK <= |file| && Logged(turns)
      requires xfer_len == i * BLOCK && wire == before + file[offset..offset + xfer_len]
      modifies clock, `wire, `events, `xfer_probe, `xfer_len, `probe_len
      ensures status == StatusOf(Meet(old(events)).0) && end == Meet(old(events)).0.AtEnd?
      ensures events == Meet(old(events)).1
      ensures xfer_len == (i + if status.Success? && !end then 1 else 0) * BLOCK
      ensures wire == before + file[offset..offset + xfer_len]
      ensures Schedule(rate, xfer_start, more) && Total(more) == xfer_len && TimeAfter(xfer_start, more) <= clock.Us()
      ensures status.Success? && !end ==> Logged(more)
    {
      ghost var t;
      more := turns;
      status, end, t := SendBlock(file, offset + i * BLOCK);
      if status.Success? && !end {
        Appended(rate, xfer_start, turns, t);
        Adjacent(file, offset, offset + i * BLOCK, offset + xfer_len);
        more := turns + [t];
      }
    }

    /** The block loop of transfer_file. */
    method SendBlocks(file: Bytes, offset: nat, blocks: int) returns (status: Status, ghost turns: seq<Turn>)
      requires offset + blocks * BLOCK <= |file| && offset <= |file|
      requires xfer_len == 0 && Gauge() == Meter(xfer_start, 0) && xfer_start <= clock.Us()
      modifies clock, `wire, `events, `quits, `xfer_probe, `xfer_len, `probe_len
      ensures offset + xfer_len <= |file| && wire == old(wire) + file[offset..offset + xfer_len]
      ensures status.Success? ==> xfer_len == Natural(blocks) * BLOCK
      ensures Schedule(rate, xfer_start, turns) && Total(turns) == xfer_len
      ensures TimeAfter(xfer_start, turns) <= clock.Us()
      ensures EndOf(old(events), old(quits), Natural(blocks)) ==
              if status.Success? then EndOf(events, quits, 0) else Ending(status, true)
    {
      turns, status := [], Success;
      var i := 0;
      while i < blocks
        invariant 0 <= i <= Natural(blocks)
        invariant xfer_len == i * BLOCK && wire == old(wire) + file[offset..offset + xfer_len]
        invariant Logged(turns)
        invariant EndOf(old(events), old(quits), Natural(blocks)) == EndOf(events, quits, Natural(blocks) - i)
      {
        var end;
        status, end, turns := SendNext(file, offset, i, old(wire), turns);
        if !status.Success? {
          return;
        }
        if end {
          return Abort, turns;
        }
        i := i + 1;
        var quit := HandleSignal();
        if quit {
          return Quit, turns;
        }
      }
      status := Success;
    }

    /** transfer_file. `full` says whether the last splice moved what was left. */
    method TransferFile(file: Bytes, offset: nat, count: nat)
      returns (status: Status, ghost full: bool, ghost turns: seq<Turn>)
      requires offset + count <= |file|
      modifies clock, `wire, `events, `quits, `xfer_start, `xfer_probe, `xfer_len, `probe_len
      ensures Ending(status, full) == EndOf(old(events), old(quits), Blocks(count))
      ensures Moved(file, offset, count, old(wire), wire, xfer_len, status, full)
      ensures Schedule(rate, xfer_start, turns)
      ensures old(clock.Us()) <= xfer_start && TimeAfter(xfer_start, turns) <= clock.Us()
      ensures Total(turns) <= xfer_len < Total(turns) + BLOCK
    {
      xfer_start := clock.Read();
      xfer_probe := xfer_start;
      xfer_len, probe_len := 0, 0;
      full := true;
      var blocks, remainder := Int32(count / BLOCK), count % BLOCK;
      BlocksFit(count);
      status, turns := SendBlocks(file, offset, blocks);
      if status.Success? {
        status, full := SendRemainder(file, offset, count);
      }
    }

    /** The last splice of transfer_file, for what is left behind the blocks. */
    method SendRemainder(file: Bytes, offset: nat, count: nat) returns (status: Status, ghost full: bool)
      requires offset + count <= |file| && offset + xfer_len <= |file|
      modifies `wire, `events, `xfer_len
      ensures Ending(status, full) == EndOf(old(events), quits, 0)
      ensures xfer_len == old(xfer_len) + if status.Success? then count % BLOCK else 0
      ensures wire == old(wire) + if status.Success? && full then file[offset + count - count % BLOCK..offset + count] else []
    {
      var end;
      status, end := SpliceFully(file, offset + count - count % BLOCK, count % BLOCK);
      full := !end;
      if status.Success? {
        xfer_len := xfer_len + count % BLOCK;
      }
    }

    /** transfer_file from the restart position to the end. */
    method TransferRest(file: Bytes) returns (status: Status, ghost full: bool, ghost turns: seq<Turn>)
      requires restart_pos <= |file|
      modifies clock, `wire, `events, `quits, `xfer_start, `xfer_probe, `xfer_len, `probe_len
      ensures Ending(status, full) == EndOf(old(events), old(quits), Blocks(|file| - restart_pos))
      ensures Delivers(file, restart_pos, old(wire), wire, xfer_len, status, full)
      ensures WithinRate(rate, xfer_start, turns, old(clock.Us()), clock.Us(), xfer_len)
    {
      status, full, turns := TransferFile(file, restart_pos, |file| - restart_pos);
      CappedWithin(rate, xfer_start, turns, old(clock.Us()), clock.Us(), xfer_len);
      DeliversSo(file, restart_pos, old(wire), wire, xfer_len, status, full);
    }

    method CountDownload()
      requires Counted()
      modifies `total_down, `downloads
      ensures Counted() && downloads == old(downloads) + [xfer_len] && total_down == old(total_down) + xfer_len
    {
      total_down := total_down + xfer_len;
      downloads := downloads + [xfer_len];
      assert downloads[..|downloads| - 1] == old(downloads);
    }

    /** doretr from the point where the file is open and the data connection accepted; None is
        the reply 451. The file is as long as stat said. */
    method Retrieve(file: Bytes) returns (status: Option<Status>, ghost full: bool, ghost turns: seq<Turn>)
      requires Counted()
      modifies this, clock
      ensures Counted() && restart_pos == if status.Some? then 0 else old(restart_pos)
      ensures status.Some? <==> old(restart_pos) <= |file|
      ensures status == None ==> wire == old(wire) && total_down == old(total_down) && downloads == old(downloads)
      ensures status.Some? ==> downloads == old(downloads) + [xfer_len]
      ensures status.Some? ==> Delivers(file, old(restart_pos), old(wire), wire, xfer_len, status.value, full)
      ensures status.Some? ==>
                Ending(status.value, full) == EndOf(old(events), old(quits), Blocks(|file| - old(restart_pos)))
      ensures status.Some? ==> WithinRate(rate, xfer_start, turns, old(clock.Us()), clock.Us(), xfer_len)
    {
      full, turns := true, [];
      if restart_pos > |file| {
        return None, full, turns;
      }
      var s;
      s, full, turns := TransferRest(file);
      CountDownload();
      restart_pos := 0;
      status := Some(s);
    }

    /** splice_stream from the data socket into the file: whatever has arrived, up to a block. */
    method SpliceIn(offset: nat) returns (e: Event, got: Bytes)
      requires |stored| <= offset || |stored| == 0
      modifies `incoming, `stored, `events
      ensures e == if old(events) != [] && !old(events)[0].Moves? then old(events)[0]
                   else if old(incoming) == [] then AtEnd else Moves
      ensures events == if old(events) == [] then [] else old(events)[1..]
      ensures |got| <= BLOCK && (e.Moves? <==> got != []) && old(incoming) == got + incoming
      ensures stored == if got == [] then old(stored) else Padded(old(stored), offset) + got
    {
      e, got := Moves, [];
      if events != [] {
        e, events := events[0], events[1..];
      }
      if e.Moves? && incoming == [] {
        e := AtEnd;
      } else if e.Moves? {
        assert 0 < 1 <= BLOCK && 1 <= |incoming|;
        var k :| 0 < k <= BLOCK && k <= |incoming|;
        got, incoming := incoming[..k], incoming[k..];
        stored := Padded(stored, offset) + got;
      }
    }

    /** One turn of the loop of store_file. */
    method StoreBlock() returns (e: Event, ghost t: Turn)
      requires |stored| <= restart_pos + xfer_len || |stored| == 0
      modifies clock, `incoming, `stored, `events, `xfer_probe, `xfer_len, `probe_len
      ensures e == MeetOne(old(events), old(incoming) == []) && events == Rest(old(events))
      ensures !e.Moves? ==>
                && incoming == old(incoming) && stored == old(stored) && xfer_len == old(xfer_len)
                && Gauge() == old(Gauge()) && clock.Us() == old(clock.Us())
      ensures e.Moves? ==>
                && 0 < t.bytes <= |old(incoming)| && incoming == old(incoming)[t.bytes..]
                && stored == Padded(old(stored), restart_pos + old(xfer_len)) + old(incoming)[..t.bytes]
                && xfer_len == old(xfer_len) + t.bytes && t.after == clock.Us()
                && Lasts(rate, old(Gauge()), old(clock.Us()), t)
                && Gauge() == Next(Fed(old(Gauge()), t.bytes), t.now, t.again)
    {
      t := Turn(0, 0, 0, 0);
      var got;
      e, got := SpliceIn(restart_pos + xfer_len);
      if e.Moves? {
        assert old(incoming)[..|got|] == got && old(incoming)[|got|..] == incoming;
        t := Account(|got|);
      }
    }

    /** dostor around it: unlike RETR it leaves the restart position for the next transfer. */
    method Store() returns (status: Status, ghost turns: seq<Turn>)
      requires stored == [] && Counted()
      modifies this, clock
      ensures Counted() && Written(old(incoming), xfer_len)
      ensures restart_pos == old(restart_pos) && total_up == old(total_up) + xfer_len
      ensures wire == old(wire) && total_down == old(total_down)
      ensures StorEnds(old(events), old(quits), |turns|, incoming == [], status)
      ensures Harmless(old(events)) && true !in old(quits) ==>
                status == Success && stored == Placed(old(incoming), |old(incoming)|, restart_pos)
      ensures WithinRate(rate, xfer_start, turns, old(clock.Us()), clock.Us(), xfer_len)
    {
      ghost var before, asked := events, quits;
      status, turns := StoreFile();
      if Harmless(before) && true !in asked { HarmlessStores(before, asked, |turns|, incoming == [], status); }
      total_up := total_up + xfer_len;
    }

    /** What a STOR has written after `n` bytes of `data`. */
    ghost predicate Written(data: Bytes, n: nat)
      reads this
    {
      n <= |data| && incoming == data[n..] && stored == Placed(data, n, restart_pos)
    }

    /** A turn of the loop keeps the log and the file right. */
    method StoreTurn(ghost data: Bytes, ghost turns: seq<Turn>) returns (e: Event, ghost more: seq<Turn>)
      requires Written(data, xfer_len) && Logged(turns)
      modifies clock, `incoming, `stored, `events, `xfer_probe, `xfer_len, `probe_len
      ensures Written(data, xfer_len) && Logged(more) && clock.Us() >= old(clock.Us())
      ensures e == MeetOne(old(events), old(incoming) == []) && events == Rest(old(events))
      ensures |incoming| <= |old(incoming)| && (e.Moves? ==> |incoming| < |old(incoming)|)
      ensures !e.Moves? ==> incoming == old(incoming)
      ensures |more| == |turns| + if e.Moves? then 1 else 0
    {
      ghost var t;
      ghost var n := xfer_len;
      more := turns;
      e, t := StoreBlock();
      if e.Moves? {
        WrittenStep(data, n, t.bytes, restart_pos);
        Appended(rate, xfer_start, turns, t);
        more := turns + [t];
      }
    }

    /** store_file into a file just created: what arrived, placed at the restart position. It ends with
        the first event that ends it, or when everything is stored. */
    method StoreFile() returns (status: Status, ghost turns: seq<Turn>)
      requires stored == []
      modifies clock, `incoming, `stored, `events, `quits, `xfer_start, `xfer_probe, `xfer_len, `probe_len
      ensures Written(old(incoming), xfer_len)
      ensures StorEnds(old(events), old(quits), |turns|, incoming == [], status)
      ensures WithinRate(rate, xfer_start, turns, old(clock.Us()), clock.Us(), xfer_len)
    {
      xfer_start := clock.Read();
      xfer_probe := xfer_start;
      xfer_len, probe_len := 0, 0;
      turns, status := [], Success;
      ghost var data := incoming;
      var over := false;
      while !over
        invariant Written(data, xfer_len) && Logged(turns) && old(clock.Us()) <= xfer_start
        invariant if over then StorEnds(old(events), old(quits), |turns|, incoming == [], status)
                  else Going(old(events), old(quits), |turns|, events, quits) && status == Success
        decreases |incoming| + |events|, !over
      {
        over, status, turns := StoreNext(data, turns, old(events), old(quits));
      }
      CappedWithin(rate, xfer_start, turns, old(clock.Us()), clock.Us(), xfer_len);
    }

    /** A turn of the loop and what it makes of its result. */
    method StoreNext(ghost data: Bytes, ghost turns: seq<Turn>, ghost events0: seq<Event>, ghost quits0: seq<bool>)
      returns (over: bool, status: Status, ghost more: seq<Turn>)
      requires Written(data, xfer_len) && Logged(turns) && Going(events0, quits0, |turns|, events, quits)
      modifies clock, `incoming, `stored, `events, `quits, `xfer_probe, `xfer_len, `probe_len
      ensures Written(data, xfer_len) && Logged(more) && clock.Us() >= old(clock.Us())
      ensures if over then StorEnds(events0, quits0, |more|, incoming == [], status)
              else Going(events0, quits0, |more|, events, quits) && status == Success
      ensures over || |incoming| + |events| < |old(incoming)| + |old(events)|
      ensures |incoming| + |events| <= |old(incoming)| + |old(events)|
    {
      ghost var before := events;
      var e;
      e, more := StoreTurn(data, turns);
      over, status := Decide(e, before, |turns|, events0, quits0);
    }

    /** What follows from the result of a splice, after n blocks and with `before` still to meet. */
    method Decide(e: Event, ghost before: seq<Event>, ghost n: nat, ghost events0: seq<Event>, ghost quits0: seq<bool>)
      returns (over: bool, status: Status)
      requires Going(events0, quits0, n, before, quits) && events == Rest(before)
      requires e == MeetOne(before, incoming == []) || (e.Moves? && (before == [] || before[0].Moves?))
      modifies `quits
      ensures var k := if e.Moves? then n + 1 else n;
              if over then StorEnds(events0, quits0, k, incoming == [], status)
              else Going(events0, quits0, k, events, quits) && status == Success
      ensures !over ==> e.Moves? || e == Interrupted(false)
    {
      if e.Moves? {
        Stores(events0, quits0, n, before, quits, incoming == []);
        over := HandleSignal();
        status := if over then Quit else Success;
      } else if e == Interrupted(false) {
        Retries(events0, quits0, n, before, quits);
        over, status := false, Success;
      } else {
        Ends(events0, quits0, n, before, quits, incoming == []);
        over := true;
        status := match e case Interrupted(_) => Quit case Reset => Abort case Failure => Error case _ => Success;
      }
    }
  }

  lemma {:induction false} Adjacent(file: Bytes, a: nat, b: nat, c: nat)
    requires a <= b <= c <= |file|
    ensures file[a..b] + file[b..c] == file[a..c]
  {}

  /** What transfer_file did to the wire: all blocks, and the remainder if its splice moved it, or what
      was counted before it ended early. */
  ghost predicate Moved(file: Bytes, offset: nat, count: nat, before: Bytes, after: Bytes, len: nat, status: Status, full: bool)
    requires offset + count <= |file|
  {
    BlocksFit(count);
    && (status.Success? ==> len == Blocks(count) * BLOCK + count % BLOCK)
    && (status.Success? && full ==> after == before + Sent(file, offset, count))
    && (status.Success? && !full ==> after == before + file[offset..offset + Blocks(count) * BLOCK])
    && (!status.Success? ==> offset + len <= |file| && after == before + file[offset..offset + len])
  }

  /** What a download from position `at` did to the wire. A successful one put the rest of the file on
      it, once and in order, exactly when the number of blocks fits its counter and the splice of the
      remainder, if there is one, moved it; it counted as many bytes as it put there exactly when that
      splice did. One that ended early put the `len` bytes on it that were counted. */
  ghost predicate Delivers(file: Bytes, at: nat, before: Bytes, after: Bytes, len: nat, status: Status, full: bool)
  {
    && at <= |file| && before <= after
    && (status.Success? ==>
          var count := |file| - at;
          && (after == before + file[at..] <==> count < INT_LIMIT * BLOCK && (full || count % BLOCK == 0))
          && len == |after| - |before| + (if full then 0 else count % BLOCK)
          && len == Blocks(count) * BLOCK + count % BLOCK
          && (full ==> after == before + Sent(file, at, count))
          && (!full ==> at + Blocks(count) * BLOCK <= |file| && after == before + file[at..at + Blocks(count) * BLOCK]))
    && (!status.Success? ==> at + len <= |file| && after == before + file[at..at + len])
  }

  lemma {:induction false} DeliversSo(file: Bytes, at: nat, before: Bytes, after: Bytes, len: nat, status: Status, full: bool)
    requires at <= |file| && Moved(file, at, |file| - at, before, after, len, status, full)
    ensures Delivers(file, at, before, after, len, status, full)
  {
    var count := |file| - at;
    BlocksFit(count);
    SentIsTheRestIff(file, at);
    if status.Success? && full {
      Prefixed(before, Sent(file, at, count), file[at..]);
    } else if status.Success? {
      Prefixed(before, file[at..at + Blocks(count) * BLOCK], file[at..]);
      PrefixIsAllIff(file, at, Blocks(count) * BLOCK);
    }
  }

  lemma {:induction false} PrefixIsAllIff(file: Bytes, at: nat, n: nat)
    requires at + n <= |file|
    ensures file[at..at + n] == file[at..] <==> n == |file| - at
  {
    assert |file[at..at + n]| == n && |file[at..]| == |file| - at;
  }

  /** A transfer of `len` bytes between two readings of the clock kept to its rate: to the slack
      of its windows, two milliseconds, and less than a block for the remainder sent unpaced. */
  ghost predicate WithinRate(rate: int, start: nat, turns: seq<Turn>, from: nat, to: nat, len: nat)
  {
    && Schedule(rate, start, turns)
    && (rate >= 1 ==>
          && 1000 * (len - BLOCK) <= rate * (to - from + 2000)
                                     + (Windows(start, turns) + Overflows(start, turns)) * Slack(rate)
          && 500000 * Windows(start, turns) <= to - from)
  }

  lemma {:induction false} CappedWithin(rate: int, start: nat, turns: seq<Turn>, from: nat, to: nat, len: nat)
    requires Schedule(rate, start, turns) && from <= start && TimeAfter(start, turns) <= to
    requires len < Total(turns) + BLOCK
    ensures WithinRate(rate, start, turns, from, to, len)
  {
    if rate >= 1 {
      RateIsCapped(rate, start, turns);
      Scale(rate, TimeAfter(start, turns) - start + 2000, to - from + 2000);
    }
  }

  /** One more turn at the end of a transfer. */
  lemma {:induction false} Appended(rate: int, start: nat, turns: seq<Turn>, t: Turn)
    requires Schedule(rate, start, turns) && Lasts(rate, MeterAfter(start, turns), TimeAfter(start, turns), t)
    ensures Schedule(rate, start, turns + [t]) && Total(turns + [t]) == Total(turns) + t.bytes
    ensures MeterAfter(start, turns + [t]) == Next(Fed(MeterAfter(start, turns), t.bytes), t.now, t.again)
    ensures TimeAfter(start, turns + [t]) == t.after
  {
    assert (turns + [t])[..|turns|] == turns;
  }

  // ---- A file that shrinks --------------------------------------------------------

  /** A file that has lost its last bytes since it was stat'ed: RETR replies that it succeeded and counts
      bytes that no splice moved. */
  method AShorterFileIsCounted(file: Bytes) returns (status: Option<Status>, sent: nat, counted: nat)
    requires 0 < |file| < BLOCK
    ensures status == Some(Success) && sent == 0 && counted == |file|
  {
    var channel := new Channel(-1, [AtEnd], []);
    ghost var full, turns;
    status, full, turns := channel.Retrieve(file);
    assert |file| / BLOCK == 0 && Blocks(|file|) == 0;
    assert |file| % BLOCK == |file| && [AtEnd][1..] == [];
    assert EndOf([AtEnd], [], 0) == Ending(Success, false);
    assert channel.downloads == [channel.xfer_len] && channel.downloads[..0] == [];
    sent, counted := |channel.wire|, channel.total_down;
  }
}
