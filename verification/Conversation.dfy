/** ftp_main as a whole: the framer of module Framer feeding the session machine of module Server.
    What a session does depends on the bytes the client sends, not on how the network cuts them up. */
module Conversation {
  import opened CStrings
  import opened Framer
  import Server

  /** What the system calls of the n-th command answer. */
  type Answers = nat -> Server.World

  ghost predicate AreAnswers(worlds: Answers)
  {
    forall n: nat, k | 0 <= k < |worlds(n).entries| :: IsC(worlds(n).entries[k])
  }

  function Inputs(cs: seq<Command>, worlds: Answers): (r: seq<Server.Input>)
    ensures |r| == |cs|
  {
    seq(|cs|, k requires 0 <= k < |cs| => Server.Input(cs[k].verb, cs[k].arg, worlds(k)))
  }

  /** The state of the session after these commands. */
  function After(setup: Server.Setup, cs: seq<Command>, worlds: Answers): Server.State
  {
    Server.Run(setup, Inputs(cs, worlds))
  }

  predicate Over(s: Server.State) { !s.alive || s.fault }

  /** Which commands of a stream end the main loop. */
  function Stops(setup: Server.Setup, all: seq<Command>, worlds: Answers): nat -> bool
  {
    (n: nat) => n < |all| && Over(After(setup, all[..n + 1], worlds))
  }

  // ---- Commands are C strings -----------------------------------------------------

  ghost predicate AreC(cs: seq<Command>) { forall k | 0 <= k < |cs| :: IsC(cs[k].verb) && IsC(cs[k].arg) }

  lemma {:induction false} LeftTrimIsC(s: Bytes)
    requires IsC(s)
    ensures IsC(LeftTrim(s))
  {
    if s != [] && IsSpace(s[0]) { LeftTrimIsC(s[1..]); }
  }

  lemma {:induction false} ParsedIsC(line: Bytes)
    ensures IsC(ParseLine(line).verb) && IsC(ParseLine(line).arg)
  {
    var s := Body(line);
    var i := IndexOf(s, ' ');
    if i < |s| { LeftTrimIsC(s[i + 1..]); }
  }

  lemma {:induction false} CommandsAreC(s: Bytes)
    ensures AreC(Commands(s))
  {
    forall line ensures IsC(ParseLine(line).verb) && IsC(ParseLine(line).arg) { ParsedIsC(line); }
    SplitIsC(ParseLine, s);
  }

  lemma {:induction false} SplitIsC(parse: LineParser, s: Bytes)
    requires forall line :: IsC(parse(line).verb) && IsC(parse(line).arg)
    ensures AreC(Split(parse, s))
    decreases |s|
  {
    var i := IndexOf(s, LF);
    if i < |s| { SplitIsC(parse, s[i + 1..]); }
  }

  lemma {:induction false} InputsAreInputs(cs: seq<Command>, worlds: Answers)
    requires AreC(cs) && AreAnswers(worlds)
    ensures Server.AllInputs(Inputs(cs, worlds))
  {
    forall k | 0 <= k < |cs| ensures Server.IsInput(Inputs(cs, worlds)[k]) {
      assert forall j | 0 <= j < |worlds(k).entries| :: IsC(worlds(k).entries[j]);
    }
  }

  // ---- A session that is over stays as it is --------------------------------------

  lemma {:induction false} AfterOne(setup: Server.Setup, cs: seq<Command>, worlds: Answers)
    requires cs != []
    ensures After(setup, cs, worlds) ==
            Server.Step(setup, After(setup, cs[..|cs| - 1], worlds), Inputs(cs, worlds)[|cs| - 1])
  {
    assert Inputs(cs, worlds)[..|cs| - 1] == Inputs(cs[..|cs| - 1], worlds);
  }

  lemma {:induction false} OverStays(setup: Server.Setup, cs: seq<Command>, worlds: Answers, k: nat)
    requires k <= |cs| && Over(After(setup, cs[..k], worlds))
    ensures After(setup, cs, worlds) == After(setup, cs[..k], worlds)
    decreases |cs|
  {
    if k == |cs| {
      assert cs[..k] == cs;
    } else {
      AfterOne(setup, cs, worlds);
      assert cs[..|cs| - 1][..k] == cs[..k];
      OverStays(setup, cs[..|cs| - 1], worlds, k);
    }
  }

  lemma {:induction false} EffectsGrow(setup: Server.Setup, cs: seq<Command>, worlds: Answers, k: nat)
    requires Server.IsTable(setup.table) && AreC(cs) && AreAnswers(worlds) && k <= |cs|
    ensures After(setup, cs[..k], worlds).effects <= After(setup, cs, worlds).effects
    decreases |cs|
  {
    if k == |cs| {
      assert cs[..k] == cs;
    } else {
      var front := cs[..|cs| - 1];
      AfterOne(setup, cs, worlds);
      assert front[..k] == cs[..k];
      EffectsGrow(setup, front, worlds, k);
      InputsAreInputs(front, worlds);
      InputsAreInputs(cs, worlds);
      Server.RunKeeps(setup, Inputs(front, worlds));
      Server.StepKeeps(setup, After(setup, front, worlds), Inputs(cs, worlds)[|cs| - 1]);
    }
  }

  /** The commands up to the first that stops: all of them, or a prefix that ends with one that does. */
  lemma {:induction false} UntilIsPrefix(cs: seq<Command>, stops: nat -> bool, n: nat) returns (k: nat)
    ensures k <= |cs| && Until(cs, stops, n) == cs[..k]
    ensures k < |cs| ==> k > 0 && stops(n + k - 1)
    decreases |cs|
  {
    if cs == [] {
      k := 0;
    } else if stops(n) {
      k := 1;
    } else {
      var j := UntilIsPrefix(cs[1..], stops, n + 1);
      k := j + 1;
      assert [cs[0]] + cs[1..][..j] == cs[..k];
    }
  }

  // ---- The whole session ----------------------------------------------------------

  /** The state of the session when the main loop ends. */
  function EndState(setup: Server.Setup, arrivals: seq<Arrival>, worlds: Answers): Server.State
  {
    var all := Commands(Received(arrivals));
    After(setup, Serve(ParseLine, [], arrivals, Stops(setup, all, worlds), 0).commands, worlds)
  }

  function TooLongFor(setup: Server.Setup, arrivals: seq<Arrival>, worlds: Answers): bool
  {
    Serve(ParseLine, [], arrivals, Stops(setup, Commands(Received(arrivals)), worlds), 0).end == TooLong
  }

  /** However the stream is cut up, the session ends in the state that its whole text, split at the
      newlines, leads to; only if the buffer fills does it stop on the way there. */
  lemma {:induction false} SessionRunsTheText(setup: Server.Setup, arrivals: seq<Arrival>, worlds: Answers)
    requires Server.IsTable(setup.table) && AreAnswers(worlds)
    ensures var text := After(setup, Commands(Received(arrivals)), worlds);
            && EndState(setup, arrivals, worlds).effects <= text.effects
            && (!TooLongFor(setup, arrivals, worlds) ==> EndState(setup, arrivals, worlds) == text)
  {
    var all := Commands(Received(arrivals));
    var stops := Stops(setup, all, worlds);
    assert [] + Received(arrivals) == Received(arrivals);
    ServeSplitsTheStream(ParseLine, [], arrivals, stops, 0);
    CommandsAreC(Received(arrivals));
    ServedRunsTheText(setup, all, Serve(ParseLine, [], arrivals, stops, 0), worlds);
  }

  lemma {:induction false} ServedRunsTheText(setup: Server.Setup, all: seq<Command>, served: Served, worlds: Answers)
    requires Server.IsTable(setup.table) && AreAnswers(worlds) && AreC(all)
    requires Complete(served, Until(all, Stops(setup, all, worlds), 0))
    ensures After(setup, served.commands, worlds).effects <= After(setup, all, worlds).effects
    ensures served.end != TooLong ==> After(setup, served.commands, worlds) == After(setup, all, worlds)
  {
    var stops := Stops(setup, all, worlds);
    var k := UntilIsPrefix(all, stops, 0);
    var n := |served.commands|;
    assert served.commands == all[..k][..n] == all[..n];
    EffectsGrow(setup, all, worlds, n);
    if served.end != TooLong {
      if k < |all| {
        assert stops(k - 1);
        OverStays(setup, all, worlds, k);
      } else {
        assert all[..k] == all;
      }
    }
  }

  /** So two ways of cutting up the same bytes that do not fill the buffer have the same effects, and
      leave the same directory, login and restart position. */
  lemma {:induction false} CutsDoNotMatter(setup: Server.Setup, a: seq<Arrival>, b: seq<Arrival>, worlds: Answers)
    requires Server.IsTable(setup.table) && AreAnswers(worlds) && Received(a) == Received(b)
    requires !TooLongFor(setup, a, worlds) && !TooLongFor(setup, b, worlds)
    ensures EndState(setup, a, worlds) == EndState(setup, b, worlds)
  {
    SessionRunsTheText(setup, a, worlds);
    SessionRunsTheText(setup, b, worlds);
  }
}
