/** The remote_bitbang daisy chain.

The server does not clock its TAPs together: it plays the whole command buffer
to the first TAP, turns that TAP's replies into the TDI bits of the second, and
so on. This module proves that the detour cannot be observed: replies and final
TAP states are those of a chain whose TAPs are all clocked command by command,
for any split of the commands into buffers, also when a chain is nested inside
another. */
module DaisyChain {

  type byte = bv8

  const READ: byte := 0x52    // 'R'
  const ZERO: byte := 0x30    // '0'
  const ONE: byte := 0x31     // '1'
  const SEVEN: byte := 0x37   // '7'

  /** A deterministic TAP. 'R' is answered with `tdo` and changes nothing; every
      other command goes through `step`. */
  datatype Machine<!S> = Machine(step: (S, byte) -> S, tdo: S -> byte)

  /** What a chain sends back, and the states its TAPs are left in. */
  datatype Outcome<+S> = Outcome(replies: seq<byte>, states: S)

  predicate IsScan(c: byte) {
    ZERO <= c <= SEVEN
  }

  /** The scan command `c` with its TDI bit taken from the TDO reply `v`. */
  function Redirect(c: byte, v: byte): (r: byte)
    requires IsScan(c)
    ensures IsScan(r) && r != READ
    ensures r & 0x06 == c & 0x06 && (r & 1 == 1 <==> v == ONE)
  {
    (c & 0xfe) | (if v == ONE then 1 else 0)
  }

  function Scans(commands: seq<byte>): nat {
    if commands == [] then 0
    else (if IsScan(commands[0]) then 1 else 0) + Scans(commands[1..])
  }

  // ----- one TAP -----------------------------------------------------------

  function RunTap<S>(m: Machine<S>, s: S, commands: seq<byte>): Outcome<S> {
    if commands == [] then
      Outcome([], s)
    else if commands[0] == READ then
      var rest := RunTap(m, s, commands[1..]);
      Outcome([m.tdo(s)] + rest.replies, rest.states)
    else
      RunTap(m, m.step(s, commands[0]), commands[1..])
  }

  // ----- the specification: all TAPs clocked together ----------------------

  /** Every TAP executes `c`; a scan reaches a TAP with the TDO its predecessor
      shows after executing that same scan. */
  function ClockAll<S>(ms: seq<Machine<S>>, ss: seq<S>, c: byte): (r: seq<S>)
    requires |ms| == |ss|
    ensures |r| == |ss|
  {
    if ms == [] then
      []
    else
      var s := ms[0].step(ss[0], c);
      [s] + ClockAll(ms[1..], ss[1..], if IsScan(c) then Redirect(c, ms[0].tdo(s)) else c)
  }

  function LastTdo<S>(ms: seq<Machine<S>>, ss: seq<S>): byte
    requires |ms| == |ss| > 0
  {
    ms[|ms| - 1].tdo(ss[|ss| - 1])
  }

  function LockStep<S>(ms: seq<Machine<S>>, ss: seq<S>, commands: seq<byte>): (r: Outcome<seq<S>>)
    requires |ms| == |ss|
    ensures |r.states| == |ss|
    decreases |commands|
  {
    if commands == [] || ms == [] then
      Outcome([], ss)
    else if commands[0] == READ then
      var rest := LockStep(ms, ss, commands[1..]);
      Outcome([LastTdo(ms, ss)] + rest.replies, rest.states)
    else
      LockStep(ms, ClockAll(ms, ss, commands[0]), commands[1..])
  }

  // ----- the algorithm: one TAP at a time ----------------------------------

  /** The buffer played to a TAP that is not the last: reads are dropped and a
      read follows every scan. */
  function Probe(commands: seq<byte>): seq<byte> {
    if commands == [] then []
    else
      (if commands[0] != READ then [commands[0]] else []) +
      (if IsScan(commands[0]) then [READ] else []) +
      Probe(commands[1..])
  }

  /** The buffer with one reply consumed for every scan. */
  function Subst(commands: seq<byte>, values: seq<byte>): (r: seq<byte>)
    requires |values| == Scans(commands)
    ensures Scans(r) == Scans(commands)
  {
    if commands == [] then []
    else if IsScan(commands[0]) then
      [Redirect(commands[0], values[0])] + Subst(commands[1..], values[1..])
    else
      [commands[0]] + Subst(commands[1..], values)
  }

  lemma {:induction false} ProbeCountsScans<S>(m: Machine<S>, s: S, commands: seq<byte>)
    ensures |RunTap(m, s, Probe(commands)).replies| == Scans(commands)
  {
    if commands != [] {
      RunTapProbe(m, s, commands);
      var s' := if commands[0] == READ then s else m.step(s, commands[0]);
      ProbeCountsScans(m, s', commands[1..]);
    }
  }

  lemma RunTapProbe<S>(m: Machine<S>, s: S, commands: seq<byte>)
    requires commands != []
    ensures var c := commands[0];
            var s' := if c == READ then s else m.step(s, c);
            var rest := RunTap(m, s', Probe(commands[1..]));
            RunTap(m, s, Probe(commands)) ==
            Outcome((if IsScan(c) then [m.tdo(s')] else []) + rest.replies, rest.states)
  {
    var c, tail := commands[0], Probe(commands[1..]);
    if c == READ {
      assert Probe(commands) == tail;
    } else if IsScan(c) {
      assert Probe(commands) == [c, READ] + tail;
      assert ([c, READ] + tail)[1..] == [READ] + tail;
      assert ([READ] + tail)[1..] == tail;
    } else {
      assert Probe(commands) == [c] + tail;
      assert ([c] + tail)[1..] == tail;
    }
  }

  /** `Chain.execute` as a recursion over the TAPs. */
  function Pipe<S>(ms: seq<Machine<S>>, ss: seq<S>, commands: seq<byte>): (r: Outcome<seq<S>>)
    requires |ms| == |ss|
    ensures |r.states| == |ss|
  {
    if ms == [] then
      Outcome([], [])
    else if |ms| == 1 then
      var o := RunTap(ms[0], ss[0], commands);
      Outcome(o.replies, [o.states])
    else
      var o := RunTap(ms[0], ss[0], Probe(commands));
      ProbeCountsScans(ms[0], ss[0], commands);
      var rest := Pipe(ms[1..], ss[1..], Subst(commands, o.replies));
      Outcome(rest.replies, [o.states] + rest.states)
  }

  /** Playing one command to the whole chain first and the rest afterwards does
      not change what the TAP-by-TAP order computes. */
  lemma {:induction false} PipePeelsOneCommand<S>(ms: seq<Machine<S>>, ss: seq<S>, commands: seq<byte>)
    requires |ms| == |ss| > 0 && commands != []
    ensures var c, rest := commands[0], commands[1..];
            Pipe(ms, ss, commands) ==
            if c == READ then
              var o := Pipe(ms, ss, rest);
              Outcome([LastTdo(ms, ss)] + o.replies, o.states)
            else
              Pipe(ms, ClockAll(ms, ss, c), rest)
  {
    if |ms| > 1 {
      var c, rest := commands[0], commands[1..];
      var m, s := ms[0], ss[0];
      var s' := if c == READ then s else m.step(s, c);
      var now := RunTap(m, s, Probe(commands));
      var later := RunTap(m, s', Probe(rest));
      RunTapProbe(m, s, commands);
      ProbeCountsScans(m, s, commands);
      ProbeCountsScans(m, s', rest);
      var next := Subst(commands, now.replies);
      if IsScan(c) {
        assert now.replies[1..] == later.replies;
      } else {
        assert now.replies == later.replies;
      }
      assert next[1..] == Subst(rest, later.replies);
      PipePeelsOneCommand(ms[1..], ss[1..], next);
      if c != READ {
        assert next[0] == if IsScan(c) then Redirect(c, m.tdo(s')) else c;
        assert ClockAll(ms, ss, c)[1..] == ClockAll(ms[1..], ss[1..], next[0]);
      }
    }
  }

  lemma {:induction false} BatchEqualsLockStep<S>(ms: seq<Machine<S>>, ss: seq<S>, commands: seq<byte>)
    requires |ms| == |ss|
    ensures Pipe(ms, ss, commands) == LockStep(ms, ss, commands)
    decreases |commands|
  {
    if ms == [] {
    } else if commands == [] {
      PipeOfNothing(ms, ss);
    } else {
      PipePeelsOneCommand(ms, ss, commands);
      if commands[0] == READ {
        BatchEqualsLockStep(ms, ss, commands[1..]);
      } else {
        BatchEqualsLockStep(ms, ClockAll(ms, ss, commands[0]), commands[1..]);
      }
    }
  }

  lemma {:induction false} PipeOfNothing<S>(ms: seq<Machine<S>>, ss: seq<S>)
    requires |ms| == |ss|
    ensures Pipe(ms, ss, []) == Outcome([], ss)
  {
    if |ms| == 1 {
      assert ss == [ss[0]];
    } else if |ms| > 1 {
      PipeOfNothing(ms[1..], ss[1..]);
      assert ss == [ss[0]] + ss[1..];
    }
  }

  // ----- the server's objects ----------------------------------------------

  function Reads(commands: seq<byte>): nat {
    if commands == [] then 0
    else (if commands[0] == READ then 1 else 0) + Reads(commands[1..])
  }

  /** A TAP process behind its socket. */
  class Tap<S> {
    const machine: Machine<S>
    var state: S

    constructor (machine: Machine<S>, state: S)
      ensures this.machine == machine && this.state == state
    {
      this.machine, this.state := machine, state;
    }

    method Execute(commands: seq<byte>) returns (result: seq<byte>)
      modifies this
      ensures Outcome(result, state) == RunTap(machine, old(state), commands)
      ensures |result| == Reads(commands)
    {
      result := [];
      for i := 0 to |commands|
        invariant |result| + Reads(commands[i..]) == Reads(commands)
        invariant var rest := RunTap(machine, state, commands[i..]);
                  RunTap(machine, old(state), commands) == Outcome(result + rest.replies, rest.states)
      {
        assert commands[i..][1..] == commands[i + 1..];
        if commands[i] == READ {
          result := result + [machine.tdo(state)];
        } else {
          state := machine.step(state, commands[i]);
        }
      }
    }
  }

  class Chain<S> {
    var taps: seq<Tap<S>>

    /** Every TAP has its own socket. */
    ghost predicate Valid()
      reads this
    {
      forall i, j :: 0 <= i < j < |taps| ==> taps[i] != taps[j]
    }

    ghost function Machines(): (ms: seq<Machine<S>>)
      reads this
      ensures |ms| == |taps|
    {
      seq(|taps|, i requires 0 <= i < |taps| reads this => taps[i].machine)
    }

    ghost function States(): (ss: seq<S>)
      reads this, taps
      ensures |ss| == |taps|
    {
      seq(|taps|, i requires 0 <= i < |taps| reads this, taps => taps[i].state)
    }

    constructor ()
      ensures Valid() && taps == []
    {
      taps := [];
    }

    method Append(tap: Tap<S>)
      requires Valid() && tap !in taps
      modifies this
      ensures Valid() && taps == old(taps) + [tap]
    {
      taps := taps + [tap];
    }

    /** Plays a buffer to one TAP. */
    method PlayTo(i: nat, commands: seq<byte>) returns (values: seq<byte>)
      requires Valid() && i < |taps|
      modifies taps[i]
      ensures var o := RunTap(Machines()[i], old(States())[i], commands);
              values == o.replies && States() == old(States())[i := o.states]
    {
      var tap := taps[i];
      values := tap.Execute(commands);
    }

    /** One round of the outer loop. */
    method Turn(i: nat, commands: seq<byte>, values: seq<byte>,
                ghost ms: seq<Machine<S>>, ghost ss: seq<S>, ghost goal: Outcome<seq<S>>)
      returns (newValues: seq<byte>)
      requires Valid() && i < |taps| && Machines() == ms && Playing(ms, ss, i, commands, values, goal)
      requires States() == Mixed(goal.states, ss, i)
      modifies taps[i]
      ensures Machines() == ms && Playing(ms, ss, i + 1, commands, newValues, goal)
      ensures States() == Mixed(goal.states, ss, i + 1)
    {
      NextTurn(ms, ss, i, commands, values, goal);
      var tmpCommands := Rewrite(commands, values, i > 0, i < |taps| - 1);
      OneMoreDone(goal.states, ss, i);
      newValues := PlayTo(i, tmpCommands);
    }

    method Execute(commands: seq<byte>) returns (result: seq<byte>)
      requires Valid()
      modifies taps
      ensures Outcome(result, States()) == LockStep(Machines(), old(States()), commands)
    {
      var values: seq<byte> := [];
      ghost var ms, ss := Machines(), States();
      ghost var goal := LockStep(ms, ss, commands);
      BatchEqualsLockStep(ms, ss, commands);
      FirstTurn(ms, ss, commands, goal);
      for i := 0 to |taps|
        invariant Machines() == ms && Playing(ms, ss, i, commands, values, goal)
        invariant States() == Mixed(goal.states, ss, i)
      {
        values := Turn(i, commands, values, ms, ss, goal);
      }
      assert States() == goal.states && values == goal.replies;
      result := values;
    }
  }

  /** The first `i` TAPs are done. */
  function Mixed<S>(after: seq<S>, before: seq<S>, i: nat): seq<S>
    requires i <= |after| == |before|
  {
    after[..i] + before[i..]
  }

  lemma OneMoreDone<S>(after: seq<S>, before: seq<S>, i: nat)
    requires i < |after| == |before|
    ensures Mixed(after, before, i)[i] == before[i]
    ensures Mixed(after, before, i)[i := after[i]] == Mixed(after, before, i + 1)
  {
  }

  /** What `Chain.execute` plays to a TAP whose input is `input`. */
  function Played(input: seq<byte>, probing: bool): seq<byte> {
    if probing then Probe(input) else input
  }

  /** The inner loop of `Chain.execute`: the buffer for one TAP. It never pops
      from an empty list of values, and it uses all of them. */
  method Rewrite(commands: seq<byte>, replies: seq<byte>, chained: bool, probing: bool)
    returns (tmpCommands: seq<byte>)
    requires |replies| == if chained then Scans(commands) else 0
    ensures tmpCommands == Played(Input(commands, replies, chained), probing)
  {
    tmpCommands := [];
    var values := replies;
    ghost var goal := Played(Input(commands, replies, chained), probing);
    ghost var rest := commands;
    ghost var toPlay := goal;
    for k := 0 to |commands|
      invariant rest == commands[k..]
      invariant |values| == if chained then Scans(rest) else 0
      invariant toPlay == Played(Input(rest, values, chained), probing)
      invariant goal == tmpCommands + toPlay
    {
      var command := commands[k];
      ghost var before := tmpCommands;
      InputStep(rest, values, chained, probing);
      rest := rest[1..];
      if chained && IsScan(command) {
        var v := values[0];
        values := values[1..];
        command := Redirect(command, v);
      }
      tmpCommands := Append(tmpCommands, command, probing);
      toPlay := Played(Input(rest, values, chained), probing);
      AppendAssociates(before, PlayedOne(command, probing), toPlay);
    }
    assert |values| == 0;
  }

  /** The command as a TAP gets it: the last one gets the reads, the others get a read
      after every scan. */
  method Append(tmpCommands: seq<byte>, command: byte, probing: bool) returns (r: seq<byte>)
    ensures r == tmpCommands + PlayedOne(command, probing)
  {
    r := tmpCommands;
    if probing {
      if command != READ {
        r := r + [command];
      }
      if IsScan(command) {
        r := r + [READ];
      }
    } else {
      r := r + [command];
    }
  }

  lemma AppendAssociates<T>(a: seq<T>, b: seq<T>, c: seq<T>)
    ensures a + (b + c) == a + b + c
  {
  }

  function Input(commands: seq<byte>, values: seq<byte>, chained: bool): seq<byte>
    requires |values| == if chained then Scans(commands) else 0
  {
    if chained then Subst(commands, values) else commands
  }

  function PlayedOne(c: byte, probing: bool): seq<byte> {
    if probing then (if c != READ then [c] else []) + (if IsScan(c) then [READ] else [])
    else [c]
  }

  lemma InputStep(commands: seq<byte>, values: seq<byte>, chained: bool, probing: bool)
    requires commands != []
    requires |values| == if chained then Scans(commands) else 0
    ensures var pop := chained && IsScan(commands[0]);
            && (pop ==> values != [])
            && var c := if pop then Redirect(commands[0], values[0]) else commands[0];
            var later := if pop then values[1..] else values;
            && |later| == (if chained then Scans(commands[1..]) else 0)
            && Played(Input(commands, values, chained), probing) ==
               PlayedOne(c, probing) + Played(Input(commands[1..], later, chained), probing)
  {
    if !chained {
      assert commands == [commands[0]] + commands[1..];
    }
  }

  lemma RedirectAgain(c: byte, v: byte, w: byte)
    requires IsScan(c)
    ensures Redirect(Redirect(c, v), w) == Redirect(c, w)
  {
  }

  /** A second substitution overrides the first. */
  lemma {:induction false} SubstTwice(commands: seq<byte>, vs: seq<byte>, ws: seq<byte>)
    requires |vs| == |ws| == Scans(commands)
    ensures Subst(Subst(commands, vs), ws) == Subst(commands, ws)
  {
    if commands != [] {
      var c := commands[0];
      if IsScan(c) {
        RedirectAgain(c, vs[0], ws[0]);
        SubstTwice(commands[1..], vs[1..], ws[1..]);
      } else {
        SubstTwice(commands[1..], vs, ws);
      }
    }
  }

  /** What TAPs `i` and later still have to contribute to `goal`. */
  ghost predicate Remaining<S>(ms: seq<Machine<S>>, ss: seq<S>, i: nat, input: seq<byte>, goal: Outcome<seq<S>>) {
    && i <= |ms| == |ss| == |goal.states|
    && (i < |ms| ==>
          var rest := Pipe(ms[i..], ss[i..], input);
          goal.replies == rest.replies && goal.states[i..] == rest.states)
  }

  /** The loop of `Chain.execute` at TAP `i`: `values` are the replies of the TAP before,
      one for every scan; behind the last TAP they are the result. */
  ghost predicate Playing<S>(ms: seq<Machine<S>>, ss: seq<S>, i: nat, commands: seq<byte>, values: seq<byte>,
                             goal: Outcome<seq<S>>) {
    && i <= |ms| == |ss| == |goal.states|
    && (i < |ms| ==> |values| == (if i > 0 then Scans(commands) else 0)
                     && Remaining(ms, ss, i, Input(commands, values, i > 0), goal))
    && (i == |ms| ==> values == goal.replies)
  }

  lemma FirstTurn<S>(ms: seq<Machine<S>>, ss: seq<S>, commands: seq<byte>, goal: Outcome<seq<S>>)
    requires |ms| == |ss| && goal == Pipe(ms, ss, commands)
    ensures Playing(ms, ss, 0, commands, [], goal)
  {
    assert ms[0..] == ms && ss[0..] == ss && goal.states[0..] == goal.states;
  }

  lemma NextTurn<S>(ms: seq<Machine<S>>, ss: seq<S>, i: nat, commands: seq<byte>, values: seq<byte>, goal: Outcome<seq<S>>)
    requires Playing(ms, ss, i, commands, values, goal) && i < |ms|
    ensures |values| == if i > 0 then Scans(commands) else 0
    ensures var o := RunTap(ms[i], ss[i], Played(Input(commands, values, i > 0), i < |ms| - 1));
            goal.states[i] == o.states && Playing(ms, ss, i + 1, commands, o.replies, goal)
  {
    PipeHead(ms, ss, i, commands, values, Input(commands, values, i > 0), goal);
  }

  /** Unfolds the recursion at TAP `i`. */
  lemma PipeHead<S>(ms: seq<Machine<S>>, ss: seq<S>, i: nat, commands: seq<byte>, values: seq<byte>,
                    input: seq<byte>, goal: Outcome<seq<S>>)
    requires Remaining(ms, ss, i, input, goal) && i < |ms|
    requires if i == 0 then input == commands
             else |values| == Scans(commands) && input == Subst(commands, values)
    ensures var o := RunTap(ms[i], ss[i], Played(input, i < |ms| - 1));
            && goal.states[i] == o.states
            && if i == |ms| - 1 then goal.replies == o.replies
               else |o.replies| == Scans(commands) && Remaining(ms, ss, i + 1, Subst(commands, o.replies), goal)
  {
    var o := RunTap(ms[i], ss[i], Played(input, i < |ms| - 1));
    assert goal.states[i] == goal.states[i..][0];
    if i < |ms| - 1 {
      ProbeCountsScans(ms[i], ss[i], input);
      assert Subst(input, o.replies) == Subst(commands, o.replies) by {
        if i > 0 { SubstTwice(commands, values, o.replies); }
      }
      assert ms[i..][1..] == ms[i + 1..] && ss[i..][1..] == ss[i + 1..];
      assert goal.states[i..][1..] == goal.states[i + 1..];
    }
  }

  // ----- the commands byte by byte -----------------------------------------

  lemma {:induction false} ClockAllAt<S>(ms: seq<Machine<S>>, ss: seq<S>, c: byte, i: nat)
    requires |ms| == |ss| && i < |ms| && IsScan(c)
    ensures var r := ClockAll(ms, ss, c);
            r[i] == ms[i].step(ss[i], if i == 0 then c else Redirect(c, ms[i - 1].tdo(r[i - 1])))
  {
    if i > 0 {
      var s := ms[0].step(ss[0], c);
      var next := Redirect(c, ms[0].tdo(s));
      ClockAllAt(ms[1..], ss[1..], next, i - 1);
      if i > 1 {
        RedirectAgain(c, ms[0].tdo(s), ms[i - 1].tdo(ClockAll(ms, ss, c)[i - 1]));
      }
    }
  }

  /** The byte that drives the three pins. */
  function ScanByte(tck: bool, tms: bool, tdi: bool): byte {
    0x30 + (if tck then 4 else 0) + (if tms then 2 else 0) + (if tdi then 1 else 0)
  }

  lemma RedirectSetsTdi(tck: bool, tms: bool, tdi: bool, v: byte)
    ensures IsScan(ScanByte(tck, tms, tdi))
    ensures Redirect(ScanByte(tck, tms, tdi), v) == ScanByte(tck, tms, v == 0x31)
  {
  }

  lemma OneCommand<S>(ms: seq<Machine<S>>, ss: seq<S>, c: byte)
    requires |ms| == |ss| > 0
    ensures LockStep(ms, ss, [c]) == if c == READ then Outcome([LastTdo(ms, ss)], ss) else Outcome([], ClockAll(ms, ss, c))
  {
    assert [c][1..] == [];
  }

  /** A scan sets the pins of the first TAP; every other TAP gets the same TCK and TMS,
      and as TDI what its predecessor shows after the scan. */
  lemma ScanRipples<S>(ms: seq<Machine<S>>, ss: seq<S>, tck: bool, tms: bool, tdi: bool)
    requires |ms| == |ss| > 0
    ensures var o := LockStep(ms, ss, [ScanByte(tck, tms, tdi)]);
            && o.replies == []
            && o.states[0] == ms[0].step(ss[0], ScanByte(tck, tms, tdi))
            && forall i {:trigger ms[i]} :: 0 < i < |ms| ==>
                 o.states[i] == ms[i].step(ss[i], ScanByte(tck, tms, ms[i - 1].tdo(o.states[i - 1]) == 0x31))
  {
    var c := ScanByte(tck, tms, tdi);
    RedirectSetsTdi(tck, tms, tdi, ONE);
    OneCommand(ms, ss, c);
    var r := ClockAll(ms, ss, c);
    forall i | 0 <= i < |ms|
      ensures r[i] == ms[i].step(ss[i], if i == 0 then c else ScanByte(tck, tms, ms[i - 1].tdo(r[i - 1]) == 0x31))
    {
      ClockAllAt(ms, ss, c, i);
      if i > 0 {
        RedirectSetsTdi(tck, tms, tdi, ms[i - 1].tdo(r[i - 1]));
      }
    }
  }

  /** A byte that is no digit up to '7' and no 'R' reaches every TAP as it is. */
  lemma OthersReachEveryTap<S>(ms: seq<Machine<S>>, ss: seq<S>, c: byte)
    requires |ms| == |ss| > 0 && (c < 0x30 || 0x37 < c) && c != 0x52
    ensures LockStep(ms, ss, [c]) == Outcome([], seq(|ms|, i requires 0 <= i < |ms| => ms[i].step(ss[i], c)))
  {
    OneCommand(ms, ss, c);
    OthersClock(ms, ss, c);
  }

  lemma {:induction false} OthersClock<S>(ms: seq<Machine<S>>, ss: seq<S>, c: byte)
    requires |ms| == |ss| && !IsScan(c)
    ensures ClockAll(ms, ss, c) == seq(|ms|, i requires 0 <= i < |ms| => ms[i].step(ss[i], c))
  {
    if ms != [] {
      OthersClock(ms[1..], ss[1..], c);
    }
  }

  /** 'R' moves no TAP, and the last one answers it. */
  lemma ReadAsksTheLast<S>(ms: seq<Machine<S>>, ss: seq<S>)
    requires |ms| == |ss| > 0
    ensures LockStep(ms, ss, [0x52]) == Outcome([ms[|ms| - 1].tdo(ss[|ms| - 1])], ss)
  {
    OneCommand(ms, ss, 0x52);
  }

  // ----- any split into buffers --------------------------------------------

  lemma {:induction false} LockStepSplits<S>(ms: seq<Machine<S>>, ss: seq<S>, a: seq<byte>, b: seq<byte>)
    requires |ms| == |ss|
    ensures var first := LockStep(ms, ss, a);
            var second := LockStep(ms, first.states, b);
            LockStep(ms, ss, a + b) == Outcome(first.replies + second.replies, second.states)
    decreases |a|
  {
    if a == [] {
      assert a + b == b;
    } else if ms != [] {
      assert (a + b)[1..] == a[1..] + b;
      var ss' := if a[0] == READ then ss else ClockAll(ms, ss, a[0]);
      LockStepSplits(ms, ss', a[1..], b);
    }
  }

  lemma {:induction false} EveryReadIsAnswered<S>(ms: seq<Machine<S>>, ss: seq<S>, commands: seq<byte>)
    requires |ms| == |ss| > 0
    ensures |LockStep(ms, ss, commands).replies| == Reads(commands)
    decreases |commands|
  {
    if commands != [] {
      var ss' := if commands[0] == READ then ss else ClockAll(ms, ss, commands[0]);
      EveryReadIsAnswered(ms, ss', commands[1..]);
    }
  }

  /** The commands a client sends before an empty buffer announces its end. */
  function Stream(buffers: seq<seq<byte>>): seq<byte> {
    if buffers == [] || buffers[0] == [] then [] else buffers[0] + Stream(buffers[1..])
  }

  function Flat<T>(parts: seq<seq<T>>): seq<T> {
    if parts == [] then [] else parts[0] + Flat(parts[1..])
  }

  /** All of the buffers, up to the first empty one. */
  lemma {:induction false} StreamIsCut(sent: seq<seq<byte>>, rest: seq<seq<byte>>)
    requires forall i :: 0 <= i < |sent| ==> sent[i] != []
    requires rest == [] || rest[0] == []
    ensures Stream(sent + rest) == Flat(sent)
  {
    if sent == [] {
      assert sent + rest == rest;
    } else {
      assert (sent + rest)[0] == sent[0] && (sent + rest)[1..] == sent[1..] + rest;
      StreamIsCut(sent[1..], rest);
    }
  }

  /** One client of the server: each received buffer is executed as it comes. */
  method Serve<S>(chain: Chain<S>, received: seq<seq<byte>>) returns (sent: seq<byte>)
    requires chain.Valid()
    modifies chain.taps
    ensures Outcome(sent, chain.States()) == LockStep(chain.Machines(), old(chain.States()), Stream(received))
  {
    sent := [];
    ghost var ms, ss, done := chain.Machines(), chain.States(), [];
    for i := 0 to |received|
      invariant chain.Machines() == ms
      invariant Outcome(sent, chain.States()) == LockStep(ms, ss, done)
      invariant Stream(received) == done + Stream(received[i..])
    {
      var commands := received[i];
      assert received[i..][1..] == received[i + 1..];
      if |commands| == 0 {
        assert Stream(received) == done;
        return;
      }
      LockStepSplits(ms, ss, done, commands);
      AppendAssociates(done, commands, Stream(received[i + 1..]));
      var result := chain.Execute(commands);
      done := done + commands;
      sent := sent + result;
    }
    assert Stream(received) == done;
  }

  // ----- a chain as a TAP --------------------------------------------------

  /** A chain seen through its `execute`, which is all another chain uses. */
  function ChainMachine<S>(ms: seq<Machine<S>>): Machine<seq<S>> {
    Machine((ss: seq<S>, c: byte) => if |ss| == |ms| then ClockAll(ms, ss, c) else ss,
            (ss: seq<S>) => if |ss| == |ms| > 0 then LastTdo(ms, ss) else ZERO)
  }

  lemma {:induction false} ChainIsATap<S>(ms: seq<Machine<S>>, ss: seq<S>, commands: seq<byte>)
    requires |ms| == |ss| > 0
    ensures RunTap(ChainMachine(ms), ss, commands) == LockStep(ms, ss, commands)
    decreases |commands|
  {
    if commands != [] {
      var ss' := if commands[0] == READ then ss else ClockAll(ms, ss, commands[0]);
      ChainIsATap(ms, ss', commands[1..]);
    }
  }

  function ChainMachines<S>(mss: seq<seq<Machine<S>>>): (r: seq<Machine<seq<S>>>)
    ensures |r| == |mss|
  {
    if mss == [] then [] else [ChainMachine(mss[0])] + ChainMachines(mss[1..])
  }

  /** Inner chains have at least one TAP each. */
  ghost predicate SameShape<S>(mss: seq<seq<Machine<S>>>, sss: seq<seq<S>>) {
    |mss| == |sss| && forall i :: 0 <= i < |mss| ==> |mss[i]| == |sss[i]| > 0
  }

  lemma FlatShape<S>(mss: seq<seq<Machine<S>>>, sss: seq<seq<S>>)
    requires SameShape(mss, sss)
    ensures |Flat(mss)| == |Flat(sss)|
    ensures mss != [] ==> |Flat(mss)| > 0
  {
    if mss != [] {
      FlatShape(mss[1..], sss[1..]);
    }
  }

  lemma {:induction false} ClockAllConcat<S>(ms: seq<Machine<S>>, ss: seq<S>, ms': seq<Machine<S>>, ss': seq<S>, c: byte)
    requires |ms| == |ss| > 0 && |ms'| == |ss'|
    ensures var first := ClockAll(ms, ss, c);
            var c' := if IsScan(c) then Redirect(c, LastTdo(ms, first)) else c;
            ClockAll(ms + ms', ss + ss', c) == first + ClockAll(ms', ss', c')
  {
    assert (ms + ms')[1..] == ms[1..] + ms' && (ss + ss')[1..] == ss[1..] + ss';
    if |ms| == 1 {
      assert ms[1..] + ms' == ms' && ss[1..] + ss' == ss';
    } else {
      var s := ms[0].step(ss[0], c);
      var next := if IsScan(c) then Redirect(c, ms[0].tdo(s)) else c;
      ClockAllConcat(ms[1..], ss[1..], ms', ss', next);
      if IsScan(c) {
        RedirectAgain(c, ms[0].tdo(s), LastTdo(ms[1..], ClockAll(ms[1..], ss[1..], next)));
      }
    }
  }

  lemma {:induction false} NestedClock<S>(mss: seq<seq<Machine<S>>>, sss: seq<seq<S>>, c: byte)
    requires SameShape(mss, sss)
    ensures var r := ClockAll(ChainMachines(mss), sss, c);
            && SameShape(mss, r)
            && |Flat(mss)| == |Flat(sss)|
            && Flat(r) == ClockAll(Flat(mss), Flat(sss), c)
  {
    FlatShape(mss, sss);
    if mss != [] {
      var first := ClockAll(mss[0], sss[0], c);
      var next := if IsScan(c) then Redirect(c, LastTdo(mss[0], first)) else c;
      FlatShape(mss[1..], sss[1..]);
      NestedClock(mss[1..], sss[1..], next);
      ClockAllConcat(mss[0], sss[0], Flat(mss[1..]), Flat(sss[1..]), c);
      var r := ClockAll(ChainMachines(mss), sss, c);
      assert r == [first] + ClockAll(ChainMachines(mss[1..]), sss[1..], next);
      assert r[1..] == ClockAll(ChainMachines(mss[1..]), sss[1..], next);
      SameShapeOneMore(mss, first, r[1..]);
    }
  }

  lemma SameShapeOneMore<S>(mss: seq<seq<Machine<S>>>, first: seq<S>, rest: seq<seq<S>>)
    requires mss != [] && SameShape(mss[1..], rest) && |mss[0]| == |first| > 0
    ensures SameShape(mss, [first] + rest)
  {
    forall i | 0 < i < |mss|
      ensures |mss[i]| == |([first] + rest)[i]| > 0
    {
      assert |mss[1..][i - 1]| == |rest[i - 1]| > 0;
    }
  }

  lemma {:induction false} NestedTdo<S>(mss: seq<seq<Machine<S>>>, sss: seq<seq<S>>)
    requires SameShape(mss, sss) && mss != []
    ensures |Flat(mss)| == |Flat(sss)| > 0
    ensures LastTdo(ChainMachines(mss), sss) == LastTdo(Flat(mss), Flat(sss))
  {
    FlatShape(mss, sss);
    if |mss| == 1 {
      assert Flat(mss) == mss[0] && Flat(sss) == sss[0];
    } else {
      NestedTdo(mss[1..], sss[1..]);
      FlatShape(mss[1..], sss[1..]);
      LastBehind(mss[0], sss[0], Flat(mss[1..]), Flat(sss[1..]));
    }
  }

  lemma LastBehind<S>(ms: seq<Machine<S>>, ss: seq<S>, ms': seq<Machine<S>>, ss': seq<S>)
    requires |ms| == |ss| && |ms'| == |ss'| > 0
    ensures LastTdo(ms + ms', ss + ss') == LastTdo(ms', ss')
  {
  }

  /** A chain of chains cannot be told from the flattened chain. */
  lemma {:induction false} NestingFlattens<S>(mss: seq<seq<Machine<S>>>, sss: seq<seq<S>>, commands: seq<byte>)
    requires SameShape(mss, sss)
    ensures |Flat(mss)| == |Flat(sss)|
    ensures var outer := LockStep(ChainMachines(mss), sss, commands);
            var flat := LockStep(Flat(mss), Flat(sss), commands);
            outer.replies == flat.replies && Flat(outer.states) == flat.states
    decreases |commands|
  {
    FlatShape(mss, sss);
    if mss != [] && commands != [] {
      if commands[0] == READ {
        NestedTdo(mss, sss);
        NestingFlattens(mss, sss, commands[1..]);
      } else {
        NestedClock(mss, sss, commands[0]);
        NestingFlattens(mss, ClockAll(ChainMachines(mss), sss, commands[0]), commands[1..]);
      }
    }
  }
}
