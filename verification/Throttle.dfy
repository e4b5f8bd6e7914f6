/** throttle.c: how far the pauses between blocks bound the rate of a whole transfer. Times are
    microseconds as gettimeofday shows them, differences milliseconds, rates bytes a millisecond. */
module Throttle {
  const BLOCK := 4096
  const INT_LIMIT := 0x8000_0000

  // ---- Arithmetic of the C code ---------------------------------------------------

  /** Conversion to a 32-bit int. */
  function Int32(x: int): int { (x + INT_LIMIT) % (2 * INT_LIMIT) - INT_LIMIT }

  lemma {:induction false} Int32Facts(x: int)
    requires x >= 0
    ensures Int32(x) <= x && (x < INT_LIMIT ==> Int32(x) == x)
    ensures Int32(x) < 0 ==> x >= INT_LIMIT
  {}

  /** Division as C does it, towards zero. */
  function Quotient(a: int, b: int): int
    requires b > 0
  {
    if a >= 0 then a / b else -((-a) / b)
  }

  datatype TimeVal = TimeVal(sec: int, usec: int)

  function Tv(us: nat): TimeVal { TimeVal(us / 1000000, us % 1000000) }

  /** util.c msecdiff, before its conversion to int. */
  function MsecDiff(t1: TimeVal, t2: TimeVal): int
  {
    (t1.sec - t2.sec) * 1000 + Quotient(t1.usec - t2.usec, 1000)
  }

  /** msecdiff is off by less than a millisecond, either way. */
  lemma {:induction false} MsecDiffBounds(a: nat, b: nat)
    ensures a - b - 1000 < 1000 * MsecDiff(Tv(a), Tv(b)) < a - b + 1000
    ensures a >= b ==> MsecDiff(Tv(a), Tv(b)) >= 0
  {
    var u := a % 1000000 - b % 1000000;
    assert a - b == 1000000 * (a / 1000000 - b / 1000000) + u;
    QuotientBounds(u);
    if a >= b { assert a / 1000000 >= b / 1000000; }
  }

  lemma {:induction false} QuotientBounds(u: int)
    ensures u - 1000 < 1000 * Quotient(u, 1000) < u + 1000
  {}

  // ---- One pause ------------------------------------------------------------------

  /** xfer_probe and probe_len: when the current window began and what it has moved. */
  datatype Meter = Meter(probe: nat, len: nat)

  function Diff(m: Meter, now: nat): int { Int32(MsecDiff(Tv(now), Tv(m.probe))) }

  /** The window that follows a call made at `now`; `again` is its second look at the clock. */
  function Next(m: Meter, now: nat, again: nat): Meter
  {
    if Diff(m, now) < 0 then m.(probe := again)
    else if Diff(m, now) > 500 then Meter(again, 0)
    else m
  }

  /** Milliseconds a call made at `now` sleeps. */
  function Sleep(rate: int, m: Meter, now: nat): (ms: nat)
  {
    if Diff(m, now) < 0 || rate < 1 then 0
    else
      var ideal := Quotient(Int32(m.len), rate);
      if ideal < Diff(m, now) then 0 else ideal - Diff(m, now)
  }

  /** Whether it calls nanosleep: not at all at a rate below one, nor when the window is behind its rate. */
  predicate Sleeps(rate: int, m: Meter, now: nat)
  {
    rate >= 1 && Diff(m, now) >= 0 && Diff(m, now) <= Quotient(Int32(m.len), rate)
  }

  lemma {:induction false} SleepsOrNot(rate: int, m: Meter, now: nat)
    ensures Sleeps(rate, m, now) ==> Sleep(rate, m, now) == Quotient(Int32(m.len), rate) - Diff(m, now)
    ensures !Sleeps(rate, m, now) ==> Sleep(rate, m, now) == 0
  {}

  /** The call ended a window, or started one over after a clock difference gone negative. */
  predicate Turns(m: Meter, now: nat) { Diff(m, now) < 0 || Diff(m, now) > 500 }

  /** probe_len no longer fits the int it is copied to. */
  predicate Truncates(m: Meter) { m.len >= INT_LIMIT }

  /** A window is only ever ended more than half a second after it began. */
  lemma {:induction false} TurnsLate(m: Meter, now: nat)
    requires now >= m.probe && Turns(m, now)
    ensures now - m.probe > 500000
  {
    MsecDiffBounds(now, m.probe);
    Int32Facts(MsecDiff(Tv(now), Tv(m.probe)));
  }

  /** What a pause buys: by its end the window is long enough for what it moved, but for two
      milliseconds. The reading `after` comes after the sleep. */
  lemma {:induction false} PausePays(rate: int, m: Meter, now: nat, after: nat)
    requires rate >= 1 && now >= m.probe && Diff(m, now) >= 0 && !Truncates(m)
    requires after >= now + 1000 * Sleep(rate, m, now)
    ensures 1000 * m.len <= rate * (after - m.probe + 2000)
  {
    var exact := MsecDiff(Tv(now), Tv(m.probe));
    MsecDiffBounds(now, m.probe);
    Int32Facts(exact);
    Int32Facts(m.len);
    var ideal := m.len / rate;
    assert Quotient(Int32(m.len), rate) == ideal;
    assert after - m.probe + 1000 > 1000 * ideal;
    Divided(m.len, rate);
    Scale(rate, 1000 * (ideal + 1), after - m.probe + 2000);
    Rescale(rate, ideal + 1);
  }

  lemma {:induction false} Divided(n: nat, rate: int)
    requires rate >= 1
    ensures n <= rate * (n / rate + 1)
  {}

  lemma {:induction false} Scale(rate: int, a: int, b: int)
    requires rate >= 0 && a <= b
    ensures rate * a <= rate * b
  {}

  lemma {:induction false} Rescale(rate: int, a: int)
    ensures rate * (1000 * a) == 1000 * (rate * a)
  {}

  /** Once the byte count overflows, the pause does not sleep at all, whatever the rate and the time. */
  lemma {:induction false} TruncationSkipsTheSleep(rate: int, m: Meter, now: nat)
    requires rate >= 1 && INT_LIMIT <= m.len < 2 * INT_LIMIT
    ensures Sleep(rate, m, now) == 0
  {
    assert Int32(m.len) == m.len - 2 * INT_LIMIT;
    assert Quotient(Int32(m.len), rate) <= 0;
  }

  // ---- A whole transfer -----------------------------------------------------------

  /** One turn of a transfer loop: bytes moved, then a pause with its looks at the clock. */
  datatype Turn = Turn(bytes: nat, now: nat, again: nat, after: nat)

  function Fed(m: Meter, bytes: nat): Meter { m.(len := m.len + bytes) }

  function MeterAfter(start: nat, turns: seq<Turn>): Meter
  {
    if turns == [] then Meter(start, 0)
    else
      var t := turns[|turns| - 1];
      Next(Fed(MeterAfter(start, turns[..|turns| - 1]), t.bytes), t.now, t.again)
  }

  function TimeAfter(start: nat, turns: seq<Turn>): nat
  {
    if turns == [] then start else turns[|turns| - 1].after
  }

  function Total(turns: seq<Turn>): nat
  {
    if turns == [] then 0 else Total(turns[..|turns| - 1]) + turns[|turns| - 1].bytes
  }

  /** The clock never runs backwards, and a sleep lasts at least as long as asked. */
  predicate Lasts(rate: int, m: Meter, at: nat, t: Turn)
  {
    t.bytes <= BLOCK && at <= t.now <= t.again && t.again + 1000 * Sleep(rate, Fed(m, t.bytes), t.now) <= t.after
  }

  predicate Schedule(rate: int, start: nat, turns: seq<Turn>)
  {
    turns == [] ||
    var front := turns[..|turns| - 1];
    Schedule(rate, start, front) && Lasts(rate, MeterAfter(start, front), TimeAfter(start, front), turns[|turns| - 1])
  }

  /** How many turns ended a window. */
  function Windows(start: nat, turns: seq<Turn>): nat
  {
    if turns == [] then 0
    else
      var front, t := turns[..|turns| - 1], turns[|turns| - 1];
      Windows(start, front) + if Turns(Fed(MeterAfter(start, front), t.bytes), t.now) then 1 else 0
  }

  /** How many turns were paced by an overflown byte count. */
  function Overflows(start: nat, turns: seq<Turn>): nat
  {
    if turns == [] then 0
    else
      var front, t := turns[..|turns| - 1], turns[|turns| - 1];
      Overflows(start, front) + if Truncates(Fed(MeterAfter(start, front), t.bytes)) then 1 else 0
  }

  /** What one window may exceed the rate by, in thousandths of a byte. */
  function Slack(rate: int): int { 2000 * rate + 1000 * BLOCK }

  /** The books of a transfer: bytes of closed windows against their time, and all bytes against
      all time, each with one slack for every window ended or overflown turn so far. */
  ghost predicate Paced(rate: int, start: nat, moved: int, m: Meter, at: nat, n: nat)
  {
    && start <= m.probe <= at
    && 1000 * (moved - m.len) <= rate * (m.probe - start) + n * Slack(rate)
    && 1000 * moved <= rate * (at - start + 2000) + n * Slack(rate)
  }

  lemma {:induction false} TurnKeepsPace(rate: int, start: nat, moved: int, m: Meter, at: nat, n: nat, t: Turn)
    requires rate >= 1 && Paced(rate, start, moved, m, at, n) && Lasts(rate, m, at, t)
    ensures var fed := Fed(m, t.bytes);
            var k := (if Turns(fed, t.now) then 1 else 0) + (if Truncates(fed) then 1 else 0);
            Paced(rate, start, moved + t.bytes, Next(fed, t.now, t.again), t.after, n + k)
  {
    var fed := Fed(m, t.bytes);
    var k := (if Turns(fed, t.now) then 1 else 0) + (if Truncates(fed) then 1 else 0);
    var next := Next(fed, t.now, t.again);
    var c := Slack(rate);
    assert (n + k) * c == n * c + k * c;
    assert c >= 2000 * rate + 1000 * t.bytes;
    assert k >= 1 ==> k * c >= c by { if k >= 1 { Scale(c, 1, k); } }
    Scale(rate, at - start, t.now - start);
    Scale(rate, t.now - start, t.again - start);
    Scale(rate, t.again - start, t.after - start);
    Split(rate, at - start, 2000);
    Split(rate, t.after - start, 2000);
    assert 1000 * (moved + t.bytes) <= rate * (t.now - start) + n * c + c;
    if Turns(fed, t.now) {
      Scale(rate, m.probe - start, next.probe - start);
    } else if !Truncates(fed) {
      PausePays(rate, fed, t.now, t.after);
      Split(rate, m.probe - start, t.after - m.probe + 2000);
    }
  }

  lemma {:induction false} Split(rate: int, a: int, b: int)
    ensures rate * (a + b) == rate * a + rate * b
  {}

  lemma {:induction false} SchedulePaced(rate: int, start: nat, turns: seq<Turn>)
    requires rate >= 1 && Schedule(rate, start, turns)
    ensures Paced(rate, start, Total(turns), MeterAfter(start, turns), TimeAfter(start, turns),
                  Windows(start, turns) + Overflows(start, turns))
    ensures 500000 * Windows(start, turns) <= MeterAfter(start, turns).probe - start
    decreases |turns|
  {
    if turns != [] {
      var front, t := turns[..|turns| - 1], turns[|turns| - 1];
      var m := MeterAfter(start, front);
      SchedulePaced(rate, start, front);
      TurnKeepsPace(rate, start, Total(front), m, TimeAfter(start, front), Windows(start, front) + Overflows(start, front), t);
      if Turns(Fed(m, t.bytes), t.now) { TurnsLate(Fed(m, t.bytes), t.now); }
    }
  }

  /** At any rate of at least one, over any transfer with a clock that does not run backwards:
      the bytes moved exceed rate times elapsed time by at most 2 ms worth of bytes, and a block
      and 2 ms worth for every window ended, each of which lasted more than half a second, and
      for every turn whose byte count overflowed. */
  lemma {:induction false} RateIsCapped(rate: int, start: nat, turns: seq<Turn>)
    requires rate >= 1 && Schedule(rate, start, turns)
    ensures 1000 * Total(turns) <=
            rate * (TimeAfter(start, turns) - start + 2000)
            + (Windows(start, turns) + Overflows(start, turns)) * Slack(rate)
    ensures 500000 * Windows(start, turns) <= TimeAfter(start, turns) - start
  {
    SchedulePaced(rate, start, turns);
  }

  // ---- When the byte count cannot overflow ----------------------------------------

  /** Rates low enough for a window's bytes to fit an int: up to some 4.28 million kB a second. */
  predicate Countable(rate: int) { 1 <= rate && 501 * rate + 2 * BLOCK <= INT_LIMIT }

  /** No call comes 2^31 ms, some 24 days, after its window began. */
  predicate Steady(start: nat, turns: seq<Turn>)
  {
    turns == [] ||
    var front, t := turns[..|turns| - 1], turns[|turns| - 1];
    Steady(start, front) && MsecDiff(Tv(t.now), Tv(MeterAfter(start, front).probe)) < INT_LIMIT
  }

  /** Sleeping d milliseconds moves msecdiff on by at least d, as long as half a second is not over. */
  lemma {:induction false} SleepShows(probe: nat, a: nat, b: nat, d: nat)
    requires probe <= a && a + 1000 * d <= b && MsecDiff(Tv(b), Tv(probe)) <= 500
    ensures MsecDiff(Tv(a), Tv(probe)) + d <= 500
  {
    MsecDiffBounds(b, probe);
    assert b - probe < 501000;
    MsecDiffSoon(a, probe);
    MsecDiffSoon(b, probe);
  }

  /** Within a second, msecdiff rounds down before the seconds change and up afterwards. */
  lemma {:induction false} MsecDiffSoon(a: nat, probe: nat)
    requires probe <= a < probe + 1000000
    ensures MsecDiff(Tv(a), Tv(probe)) ==
            if a / 1000000 == probe / 1000000 then (a - probe) / 1000 else (a - probe + 999) / 1000
  {
    var u := a % 1000000 - probe % 1000000;
    assert a - probe == 1000000 * (a / 1000000 - probe / 1000000) + u;
    if a / 1000000 != probe / 1000000 {
      assert a / 1000000 == probe / 1000000 + 1;
      assert u < 0 && a - probe == 1000000 + u;
    }
  }

  /** What bounds the bytes of a window: while it is under half a second old, its pauses have kept it
      below 501 ms worth of bytes; one block more can come before the next pause. */
  ghost predicate Small(rate: int, m: Meter, at: nat)
  {
    && m.probe <= at && m.len < 501 * rate + BLOCK
    && (MsecDiff(Tv(at), Tv(m.probe)) <= 500 ==> m.len < 501 * rate)
  }

  lemma {:induction false} TurnStaysSmall(rate: int, m: Meter, at: nat, t: Turn)
    requires Countable(rate) && Small(rate, m, at) && Lasts(rate, m, at, t)
    requires MsecDiff(Tv(t.now), Tv(m.probe)) < INT_LIMIT
    ensures var fed := Fed(m, t.bytes); !Truncates(fed) && Small(rate, Next(fed, t.now, t.again), t.after)
  {
    var fed := Fed(m, t.bytes);
    var exact := MsecDiff(Tv(t.now), Tv(m.probe));
    MsecDiffBounds(t.now, m.probe);
    Int32Facts(exact);
    Int32Facts(fed.len);
    assert Diff(fed, t.now) == exact;
    if exact <= 500 {
      SleepShows(m.probe, at, t.now, 0);
      if MsecDiff(Tv(t.after), Tv(m.probe)) <= 500 {
        PaidSoon(rate, fed, t.now, t.after);
      }
    }
  }

  /** A pause over before half a second is has kept the window small. */
  lemma {:induction false} PaidSoon(rate: int, m: Meter, now: nat, after: nat)
    requires rate >= 1 && m.len < INT_LIMIT && m.probe <= now && now + 1000 * Sleep(rate, m, now) <= after
    requires 0 <= MsecDiff(Tv(now), Tv(m.probe)) == Diff(m, now) && MsecDiff(Tv(after), Tv(m.probe)) <= 500
    ensures m.len < 501 * rate
  {
    SleepShows(m.probe, now, after, Sleep(rate, m, now));
    Int32Facts(m.len);
    assert Quotient(Int32(m.len), rate) == m.len / rate <= 500;
    FewMilliseconds(rate, m.len);
  }

  lemma {:induction false} FewMilliseconds(rate: int, n: nat)
    requires rate >= 1 && n / rate <= 500
    ensures n < 501 * rate
  {
    Divided(n, rate);
    Scale(rate, n / rate + 1, 501);
    assert n == rate * (n / rate) + n % rate;
  }

  lemma {:induction false} WindowStaysSmall(rate: int, start: nat, turns: seq<Turn>)
    requires Countable(rate) && Schedule(rate, start, turns) && Steady(start, turns)
    ensures Overflows(start, turns) == 0 && Small(rate, MeterAfter(start, turns), TimeAfter(start, turns))
    decreases |turns|
  {
    if turns == [] {
      MsecDiffBounds(start, start);
    } else {
      var front, t := turns[..|turns| - 1], turns[|turns| - 1];
      WindowStaysSmall(rate, start, front);
      TurnStaysSmall(rate, MeterAfter(start, front), TimeAfter(start, front), t);
    }
  }

  /** For every rate a configuration can sensibly name, the cap holds without the overflow term. */
  lemma {:induction false} CountableRateIsCapped(rate: int, start: nat, turns: seq<Turn>)
    requires Countable(rate) && Schedule(rate, start, turns) && Steady(start, turns)
    ensures 1000 * Total(turns) <=
            rate * (TimeAfter(start, turns) - start + 2000) + Windows(start, turns) * Slack(rate)
  {
    WindowStaysSmall(rate, start, turns);
    RateIsCapped(rate, start, turns);
  }

  // ---- When it does ---------------------------------------------------------------

  lemma {:induction false} WholeMilliseconds(x: nat, y: nat)
    requires y <= x
    ensures MsecDiff(Tv(1000 * x), Tv(1000 * y)) == x - y
  {
    Thousands(x);
    Thousands(y);
    var u := x % 1000 - y % 1000;
    assert Quotient(1000 * u, 1000) == u;
  }

  lemma {:induction false} Thousands(x: nat)
    ensures 1000 * x / 1000000 == x / 1000 && 1000 * x % 1000000 == 1000 * (x % 1000)
  {}

  lemma {:induction false} OneMore(start: nat, front: seq<Turn>, t: Turn)
    ensures (front + [t])[..|front + [t]| - 1] == front && (front + [t])[|front + [t]| - 1] == t
    ensures MeterAfter(start, front + [t]) == Next(Fed(MeterAfter(start, front), t.bytes), t.now, t.again)
    ensures TimeAfter(start, front + [t]) == t.after
    ensures Overflows(start, front + [t]) ==
            Overflows(start, front) + if Truncates(Fed(MeterAfter(start, front), t.bytes)) then 1 else 0
    ensures Steady(start, front + [t]) <==>
            Steady(start, front) && MsecDiff(Tv(t.now), Tv(MeterAfter(start, front).probe)) < INT_LIMIT
  {
    assert (front + [t])[..|front + [t]| - 1] == front;
  }

  lemma {:induction false} OneMoreLasts(rate: int, start: nat, front: seq<Turn>, t: Turn)
    requires Schedule(rate, start, front) && Lasts(rate, MeterAfter(start, front), TimeAfter(start, front), t)
    ensures Schedule(rate, start, front + [t])
  {
    assert (front + [t])[..|front + [t]| - 1] == front;
  }

  /** The milliseconds k blocks take at a rate. */
  function Due(rate: int, k: nat): nat
    requires rate >= 1
  {
    k * BLOCK / rate
  }

  /** Blocks one after the other, each as soon as the pause behind the one before is over. */
  function Busy(rate: int, k: nat): seq<Turn>
    requires rate >= 1
  {
    if k == 0 then []
    else Busy(rate, k - 1) + [Turn(BLOCK, 1000 * Due(rate, k - 1), 1000 * Due(rate, k - 1), 1000 * Due(rate, k))]
  }

  lemma {:induction false} BusyIsSchedule(rate: int, k: nat)
    requires rate >= 1 && k * BLOCK < INT_LIMIT && (k > 0 ==> Due(rate, k - 1) <= 500)
    ensures Schedule(rate, 0, Busy(rate, k)) && Steady(0, Busy(rate, k))
    ensures MeterAfter(0, Busy(rate, k)) == Meter(0, k * BLOCK) && TimeAfter(0, Busy(rate, k)) == 1000 * Due(rate, k)
  {
    if k > 0 {
      var front := Busy(rate, k - 1);
      var t := Turn(BLOCK, 1000 * Due(rate, k - 1), 1000 * Due(rate, k - 1), 1000 * Due(rate, k));
      if k > 1 { DueGrows(rate, k - 2); }
      BusyIsSchedule(rate, k - 1);
      BusyTurn(rate, k, t);
      OneMore(0, front, t);
      OneMoreLasts(rate, 0, front, t);
    }
  }

  lemma {:induction false} BusyTurn(rate: int, k: nat, t: Turn)
    requires rate >= 1 && k > 0 && k * BLOCK < INT_LIMIT && Due(rate, k - 1) <= 500
    requires t == Turn(BLOCK, 1000 * Due(rate, k - 1), 1000 * Due(rate, k - 1), 1000 * Due(rate, k))
    ensures var m := Meter(0, (k - 1) * BLOCK);
            && Lasts(rate, m, 1000 * Due(rate, k - 1), t)
            && Next(Fed(m, BLOCK), t.now, t.again) == Meter(0, k * BLOCK)
            && MsecDiff(Tv(t.now), Tv(0)) < INT_LIMIT
  {
    var a, b := Due(rate, k - 1), Due(rate, k);
    DueGrows(rate, k - 1);
    WholeMilliseconds(a, 0);
    Int32Facts(a);
    Int32Facts(k * BLOCK);
    assert Diff(Meter(0, k * BLOCK), 1000 * a) == a;
    assert Quotient(k * BLOCK, rate) == b;
  }

  lemma {:induction false} DueGrows(rate: int, k: nat)
    requires rate >= 1
    ensures Due(rate, k) <= Due(rate, k + 1)
  {
    Monotone(k * BLOCK, (k + 1) * BLOCK, rate);
  }

  lemma {:induction false} Monotone(a: nat, b: nat, rate: int)
    requires a <= b && rate >= 1
    ensures a / rate <= b / rate
  {
    if a / rate > b / rate {
      Scale(rate, b / rate + 1, a / rate);
      Divided(b, rate);
    }
  }

  /** Blocks that the throttle lets through in half a second, where there are enough of them to overflow. */
  lemma {:induction false} BusyOverflows(rate: int) returns (turns: seq<Turn>)
    requires rate >= 1 && !Countable(rate)
    ensures Schedule(rate, 0, turns) && Steady(0, turns) && Overflows(0, turns) >= 1
  {
    var k := INT_LIMIT / BLOCK - 1;
    DueIsSmall(rate, k - 1);
    BusyIsSchedule(rate, k);
    var front, at := Busy(rate, k), 1000 * Due(rate, k);
    var t := Turn(BLOCK, at, at, at);
    TruncationSkipsTheSleep(rate, Fed(MeterAfter(0, front), BLOCK), at);
    OneMore(0, front, t);
    OneMoreLasts(rate, 0, front, t);
    WholeMilliseconds(Due(rate, k), 0);
    QuotientIsLess(k * BLOCK, rate);
    turns := front + [t];
  }

  lemma {:induction false} DueIsSmall(rate: int, k: nat)
    requires k * BLOCK < 501 * rate
    ensures Due(rate, k) <= 500
  {
    if Due(rate, k) > 500 {
      Scale(rate, 501, Due(rate, k));
      Floor(k * BLOCK, rate);
    }
  }

  lemma {:induction false} Floor(a: nat, rate: int)
    requires rate >= 1
    ensures rate * (a / rate) <= a
  {}

  lemma {:induction false} QuotientIsLess(a: nat, rate: int)
    requires rate >= 1
    ensures a / rate <= a
  {
    Floor(a, rate);
    Scale(a / rate, 1, rate);
  }

  /** The byte count of a window can overflow within half a second of steady calls exactly at rates that
      are not countable. */
  lemma {:induction false} CountableIff(rate: int)
    requires rate >= 1
    ensures Countable(rate) <==>
            forall start, turns | Schedule(rate, start, turns) && Steady(start, turns) :: Overflows(start, turns) == 0
  {
    if Countable(rate) {
      forall start, turns | Schedule(rate, start, turns) && Steady(start, turns) ensures Overflows(start, turns) == 0 {
        WindowStaysSmall(rate, start, turns);
      }
    } else {
      var turns := BusyOverflows(rate);
    }
  }

  const LATE := 1000 * INT_LIMIT

  /** Blocks 2^31 ms apart. */
  lemma {:induction false} RareCalls(rate: int, k: nat) returns (turns: seq<Turn>)
    requires rate >= 1
    ensures Schedule(rate, 0, turns) && MeterAfter(0, turns) == Meter(1000 * (k * INT_LIMIT), k * BLOCK)
    ensures TimeAfter(0, turns) == 1000 * (k * INT_LIMIT)
  {
    turns := [];
    if k > 0 {
      var front := RareCalls(rate, k - 1);
      turns := RareStep(rate, front, (k - 1) * INT_LIMIT, (k - 1) * BLOCK);
    }
  }

  lemma {:induction false} RareStep(rate: int, front: seq<Turn>, ms: nat, len: nat) returns (turns: seq<Turn>)
    requires rate >= 1 && Schedule(rate, 0, front)
    requires MeterAfter(0, front) == Meter(1000 * ms, len) && TimeAfter(0, front) == 1000 * ms
    ensures var at := 1000 * (ms + INT_LIMIT);
            Schedule(rate, 0, turns) && MeterAfter(0, turns) == Meter(at, len + BLOCK) && TimeAfter(0, turns) == at
    ensures len + BLOCK >= INT_LIMIT ==> Overflows(0, turns) >= 1
  {
    var at := 1000 * ms + LATE;
    var t := Turn(BLOCK, at, at, at);
    RareTurn(rate, ms, len, t);
    OneMore(0, front, t);
    OneMoreLasts(rate, 0, front, t);
    turns := front + [t];
  }

  lemma {:induction false} RareTurn(rate: int, ms: nat, len: nat, t: Turn)
    requires rate >= 1 && t == Turn(BLOCK, 1000 * ms + LATE, 1000 * ms + LATE, 1000 * ms + LATE)
    ensures var m := Meter(1000 * ms, len);
            Lasts(rate, m, 1000 * ms, t) && Next(Fed(m, BLOCK), t.now, t.again) == Meter(t.now, len + BLOCK)
  {
    WholeMilliseconds(ms + INT_LIMIT, ms);
    assert t.now == 1000 * (ms + INT_LIMIT);
    assert Int32(INT_LIMIT) == -INT_LIMIT;
    assert Diff(Meter(1000 * ms, len + BLOCK), t.now) == -INT_LIMIT;
  }

  /** Calls do have to be steady: every 24 days the clock difference turns negative, the window starts
      over without its bytes being paid for, and at any rate the count overflows in the end. */
  lemma {:induction false} RareCallsOverflow(rate: int) returns (turns: seq<Turn>)
    requires rate >= 1
    ensures Schedule(rate, 0, turns) && Overflows(0, turns) >= 1
  {
    var k := INT_LIMIT / BLOCK - 1;
    var front := RareCalls(rate, k);
    turns := RareStep(rate, front, k * INT_LIMIT, k * BLOCK);
  }

  // ---- Not slower than asked ------------------------------------------------------

  /** Milliseconds that the pauses of a transfer ask for in all. */
  function Slept(rate: int, start: nat, turns: seq<Turn>): nat
  {
    if turns == [] then 0
    else
      var front, t := turns[..|turns| - 1], turns[|turns| - 1];
      Slept(rate, start, front) + Sleep(rate, Fed(MeterAfter(start, front), t.bytes), t.now)
  }

  /** The sleep asked for in closed windows is paid for by their bytes, that of the window under way by
      its own, and by its time. */
  ghost predicate PaidFor(rate: int, moved: int, slept: int, m: Meter, at: nat, w: nat)
  {
    rate * (slept - w) <= moved - m.len && rate * w <= m.len && m.probe + 1000 * w <= at
  }

  lemma {:induction false} TurnIsPaidFor(rate: int, moved: int, slept: int, m: Meter, at: nat, w: nat, t: Turn) returns (v: nat)
    requires rate >= 1 && PaidFor(rate, moved, slept, m, at, w) && Lasts(rate, m, at, t)
    requires MsecDiff(Tv(t.now), Tv(m.probe)) < INT_LIMIT
    ensures var fed := Fed(m, t.bytes);
            PaidFor(rate, moved + t.bytes, slept + Sleep(rate, fed, t.now), Next(fed, t.now, t.again), t.after, v)
  {
    var fed := Fed(m, t.bytes);
    var s := Sleep(rate, fed, t.now);
    var exact := MsecDiff(Tv(t.now), Tv(m.probe));
    MsecDiffBounds(t.now, m.probe);
    Int32Facts(exact);
    assert Diff(fed, t.now) == exact && w <= exact;
    SleepIsIn(rate, fed, t.now, w);
    Split(rate, slept - w, w + s);
    assert (slept - w) + (w + s) == slept + s;
    v := if exact > 500 then 0 else w + s;
    if exact > 500 {
      assert Next(fed, t.now, t.again) == Meter(t.again, 0);
    } else {
      assert slept + s - v == slept - w;
    }
  }

  /** What was asked for in a window, this sleep included, is at most the time its bytes take. */
  lemma {:induction false} SleepIsIn(rate: int, m: Meter, now: nat, w: nat)
    requires rate >= 1 && Diff(m, now) >= w && rate * w <= m.len
    ensures rate * (w + Sleep(rate, m, now)) <= m.len
  {
    var s := Sleep(rate, m, now);
    if s == 0 {
      assert w + s == w;
    } else {
      SleepsOrNot(rate, m, now);
      Int32Facts(m.len);
      PartOf(rate, Int32(m.len), w + s);
    }
  }

  lemma {:induction false} PartOf(rate: int, n: int, k: nat)
    requires rate >= 1 && 0 < k <= Quotient(n, rate)
    ensures rate * k <= n
  {
    if n >= 0 {
      Floor(n, rate);
      Scale(rate, k, n / rate);
    }
  }

  lemma {:induction false} TransferIsPaidFor(rate: int, start: nat, turns: seq<Turn>) returns (w: nat)
    requires rate >= 1 && Schedule(rate, start, turns) && Steady(start, turns)
    ensures PaidFor(rate, Total(turns), Slept(rate, start, turns), MeterAfter(start, turns), TimeAfter(start, turns), w)
    decreases |turns|
  {
    w := 0;
    if turns != [] {
      var front, t := turns[..|turns| - 1], turns[|turns| - 1];
      w := TransferIsPaidFor(rate, start, front);
      w := TurnIsPaidFor(rate, Total(front), Slept(rate, start, front), MeterAfter(start, front), TimeAfter(start, front), w, t);
    }
  }

  /** A transfer is not slowed below its rate: over all its steady calls the pauses ask for no more sleep
      than its bytes take at that rate, and at a rate below one for none. */
  lemma {:induction false} SleepIsPaidFor(rate: int, start: nat, turns: seq<Turn>)
    requires Schedule(rate, start, turns) && Steady(start, turns)
    ensures rate >= 1 ==> rate * Slept(rate, start, turns) <= Total(turns)
    ensures rate < 1 ==> Slept(rate, start, turns) == 0
  {
    if rate >= 1 {
      var w := TransferIsPaidFor(rate, start, turns);
      Split(rate, Slept(rate, start, turns) - w, w);
    } else {
      UnlimitedNeverSleeps(rate, start, turns);
    }
  }

  lemma {:induction false} UnlimitedNeverSleeps(rate: int, start: nat, turns: seq<Turn>)
    requires rate < 1
    ensures Slept(rate, start, turns) == 0
  {
    if turns != [] { UnlimitedNeverSleeps(rate, start, turns[..|turns| - 1]); }
  }
}
