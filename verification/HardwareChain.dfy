/** The daisy chain and the hardware chain it stands for.

In hardware every TAP sees the TDO that its neighbour drove before the clock edge;
the server hands on the TDO of after the command. The module says for every chain
and scan exactly when that makes no difference, and what a TAP needs to be safe next
to every other. These are the pin rules of IEEE Std 1149.1: a steady TDO in front of
all that sample TDI on the rising edge, sampling there behind all whose TDO is steady.
If only replies count, and not the states the TAPs are left in, a TAP may also look at
TDI elsewhere, as long as no reply ever depends on it. */
module HardwareChain {
  import opened DaisyChain

  // ----- the hardware chain ------------------------------------------------

  /** In hardware all TAPs see the clock edge at once: TDI is the TDO that the
      neighbour drove before the command. */
  function HardwareClock<S>(ms: seq<Machine<S>>, ss: seq<S>, c: byte): (r: seq<S>)
    requires |ms| == |ss|
    ensures |r| == |ss|
  {
    if ms == [] then
      []
    else
      [ms[0].step(ss[0], c)] +
      HardwareClock(ms[1..], ss[1..], if IsScan(c) then Redirect(c, ms[0].tdo(ss[0])) else c)
  }

  function HardwareRun<S>(ms: seq<Machine<S>>, ss: seq<S>, commands: seq<byte>): (r: Outcome<seq<S>>)
    requires |ms| == |ss|
    ensures |r.states| == |ss|
    decreases |commands|
  {
    if commands == [] || ms == [] then
      Outcome([], ss)
    else if commands[0] == READ then
      var rest := HardwareRun(ms, ss, commands[1..]);
      Outcome([LastTdo(ms, ss)] + rest.replies, rest.states)
    else
      HardwareRun(ms, HardwareClock(ms, ss, commands[0]), commands[1..])
  }

  predicate TckBit(c: byte) {
    c & 4 == 4
  }

  /** `tck` is the clock level that a state remembers. */
  ghost predicate Follows<S(!new)>(m: Machine<S>, tck: S -> bool) {
    forall s, c: byte :: c != READ ==> tck(m.step(s, c)) == LevelAfter(c, tck(s))
  }

  predicate LevelAfter(c: byte, level: bool) {
    if IsScan(c) then TckBit(c) else level
  }

  /** The scan `c` raises TCK. */
  predicate Rising(c: byte, level: bool) {
    IsScan(c) && TckBit(c) && !level
  }

  /** Clause 4.4 of IEEE Std 1149.1: TDI is sampled on the rising edge of TCK only. */
  ghost predicate Samples<S(!new)>(m: Machine<S>, tck: S -> bool) {
    forall s, c: byte, v: byte :: IsScan(c) && !Rising(c, tck(s)) ==> m.step(s, Redirect(c, v)) == m.step(s, c)
  }

  /** Clause 4.5: TDO does not change on that edge. */
  ghost predicate Steady<S(!new)>(m: Machine<S>, tck: S -> bool) {
    forall s, c: byte :: Rising(c, tck(s)) ==> (m.tdo(m.step(s, c)) == ONE <==> m.tdo(s) == ONE)
  }

  ghost predicate AtLevel<S(!new)>(ms: seq<Machine<S>>, ss: seq<S>, tcks: seq<S -> bool>, level: bool) {
    && |ms| == |ss| == |tcks|
    && forall i :: 0 <= i < |ms| ==> Follows(ms[i], tcks[i]) && tcks[i](ss[i]) == level
  }

  /** A TAP with a predecessor samples as it should, one with a successor is steady. */
  ghost predicate Compliant<S(!new)>(ms: seq<Machine<S>>, tcks: seq<S -> bool>) {
    && |ms| == |tcks|
    && (forall i :: 0 < i < |ms| ==> Samples(ms[i], tcks[i]))
    && (forall i :: 0 <= i < |ms| - 1 ==> Steady(ms[i], tcks[i]))
  }

  /** The same scan up to the TDI bit; on a rising edge of TCK that bit, too. */
  ghost predicate SameEdge(c: byte, d: byte, level: bool) {
    if IsScan(c) && !Rising(c, level) then exists v :: d == Redirect(c, v) else d == c
  }

  lemma SameEdgePassesOn(c: byte, d: byte, level: bool, v: byte, w: byte)
    requires IsScan(c) && SameEdge(c, d, level) && (Rising(c, level) ==> (v == ONE <==> w == ONE))
    ensures IsScan(d) && SameEdge(Redirect(c, v), Redirect(d, w), level)
    ensures TckBit(Redirect(c, v)) == TckBit(c)
  {
    if !Rising(c, level) {
      var u :| d == Redirect(c, u);
      RedirectAgain(c, u, w);
      RedirectAgain(c, v, w);
      assert Redirect(d, w) == Redirect(Redirect(c, v), w);
    }
  }

  /** Every scan sets the remembered level to its TCK, and other commands keep it. */
  lemma LevelIsTck(tck: bool, tms: bool, tdi: bool, level: bool, c: byte)
    ensures LevelAfter(ScanByte(tck, tms, tdi), level) == tck
    ensures Rising(ScanByte(tck, tms, tdi), level) <==> tck && !level
    ensures c < 0x30 || 0x37 < c ==> LevelAfter(c, level) == level && !Rising(c, level)
  {
  }

  /** TAPs clocked together and hardware agree, if each is ready for the difference
      between the bit before the command and the bit after it. */
  lemma {:induction false} ClockEqualsHardware<S(!new)>(ms: seq<Machine<S>>, ss: seq<S>, tcks: seq<S -> bool>,
                                                        level: bool, c: byte, d: byte)
    requires AtLevel(ms, ss, tcks, level) && Compliant(ms, tcks) && c != READ
    requires SameEdge(c, d, level) && (ms != [] && c != d ==> Samples(ms[0], tcks[0]))
    ensures HardwareClock(ms, ss, c) == ClockAll(ms, ss, d)
    ensures AtLevel(ms, HardwareClock(ms, ss, c), tcks, LevelAfter(c, level))
  {
    if ms != [] {
      var m, s := ms[0], ss[0];
      var s' := m.step(s, c);
      assert Follows(m, tcks[0]) && tcks[0](s) == level;
      assert m.step(s, d) == s';
      TailIsCompliant(ms, ss, tcks, level);
      if IsScan(c) {
        var next, next' := Redirect(c, m.tdo(s)), Redirect(d, m.tdo(s'));
        if |ms| > 1 {
          SameEdgePassesOn(c, d, level, m.tdo(s), m.tdo(s'));
          ClockEqualsHardware(ms[1..], ss[1..], tcks[1..], level, next, next');
        }
        LevelOneMore(ms, s', HardwareClock(ms[1..], ss[1..], next), tcks, TckBit(c));
      } else {
        ClockEqualsHardware(ms[1..], ss[1..], tcks[1..], level, c, c);
        LevelOneMore(ms, s', HardwareClock(ms[1..], ss[1..], c), tcks, level);
      }
    }
  }

  lemma TailIsCompliant<S(!new)>(ms: seq<Machine<S>>, ss: seq<S>, tcks: seq<S -> bool>, level: bool)
    requires AtLevel(ms, ss, tcks, level) && Compliant(ms, tcks) && ms != []
    ensures AtLevel(ms[1..], ss[1..], tcks[1..], level) && Compliant(ms[1..], tcks[1..])
    ensures |ms| > 1 ==> Samples(ms[1..][0], tcks[1..][0])
    ensures |ms| > 1 ==> Steady(ms[0], tcks[0])
  {
  }

  lemma LevelOneMore<S(!new)>(ms: seq<Machine<S>>, s: S, rest: seq<S>, tcks: seq<S -> bool>, level: bool)
    requires ms != [] && tcks != [] && AtLevel(ms[1..], rest, tcks[1..], level)
    requires Follows(ms[0], tcks[0]) && tcks[0](s) == level
    ensures AtLevel(ms, [s] + rest, tcks, level)
  {
    forall i | 0 < i < |ms|
      ensures Follows(ms[i], tcks[i]) && tcks[i](([s] + rest)[i]) == level
    {
      assert Follows(ms[1..][i - 1], tcks[1..][i - 1]) && tcks[1..][i - 1](rest[i - 1]) == level;
    }
  }

  /** With compliant TAPs whose clocks start at the same level, the server is
      indistinguishable from the hardware chain. */
  lemma {:induction false} CompliantChainIsHardware<S(!new)>(ms: seq<Machine<S>>, ss: seq<S>, tcks: seq<S -> bool>,
                                                            level: bool, commands: seq<byte>)
    requires AtLevel(ms, ss, tcks, level) && Compliant(ms, tcks)
    ensures LockStep(ms, ss, commands) == HardwareRun(ms, ss, commands)
    decreases |commands|
  {
    if commands != [] && ms != [] {
      var c := commands[0];
      if c == READ {
        CompliantChainIsHardware(ms, ss, tcks, level, commands[1..]);
      } else {
        if IsScan(c) {
          RedirectToItself(c);
        }
        ClockEqualsHardware(ms, ss, tcks, level, c, c);
        CompliantChainIsHardware(ms, ClockAll(ms, ss, c), tcks, LevelAfter(c, level), commands[1..]);
      }
    }
  }

  lemma RedirectToItself(c: byte)
    requires IsScan(c)
    ensures exists v :: c == Redirect(c, v)
  {
    assert c == Redirect(c, if c & 1 == 1 then ONE else ZERO);
  }

  /** Without compliance the order matters: a TAP that passes TDI straight to
      TDO hands its neighbour the new bit here and the old bit in hardware. */
  lemma PassThroughIsNotHardware()
    ensures var m := Machine((s: byte, c: byte) => c, (s: byte) => if s & 1 == 1 then ONE else ZERO);
            ClockAll([m, m], [ZERO, ZERO], 0x35) == [0x35, 0x35]
            && HardwareClock([m, m], [ZERO, ZERO], 0x35) == [0x35, 0x34]
  {
    var m := Machine((s: byte, c: byte) => c, (s: byte) => if s & 1 == 1 then ONE else ZERO);
    assert ClockAll([m, m][1..], [ZERO, ZERO][1..], 0x35) == [0x35];
    assert HardwareClock([m, m][1..], [ZERO, ZERO][1..], 0x34) == [0x34];
  }

  // ----- exactly when the difference shows ---------------------------------

  /** The link behind TAP `i`: the bit before the command and the bit after it do the
      same to the next TAP. */
  ghost predicate LinkAgrees<S>(ms: seq<Machine<S>>, ss: seq<S>, c: byte, i: nat)
    requires |ms| == |ss| && i + 1 < |ms| && IsScan(c)
  {
    var old_, new_ := ms[i].tdo(ss[i]), ms[i].tdo(HardwareClock(ms, ss, c)[i]);
    ms[i + 1].step(ss[i + 1], Redirect(c, old_)) == ms[i + 1].step(ss[i + 1], Redirect(c, new_))
  }

  lemma {:induction false} HardwareAt<S>(ms: seq<Machine<S>>, ss: seq<S>, c: byte, i: nat)
    requires |ms| == |ss| && i < |ms| && IsScan(c)
    ensures HardwareClock(ms, ss, c)[i] == ms[i].step(ss[i], if i == 0 then c else Redirect(c, ms[i - 1].tdo(ss[i - 1])))
  {
    if i > 0 {
      var next := Redirect(c, ms[0].tdo(ss[0]));
      HardwareAt(ms[1..], ss[1..], next, i - 1);
      if i > 1 {
        RedirectAgain(c, ms[0].tdo(ss[0]), ms[i - 1].tdo(ss[i - 1]));
      }
    }
  }

  /** In hardware TDI is what the predecessor shows before the scan. */
  lemma HardwareRipples<S>(ms: seq<Machine<S>>, ss: seq<S>, tck: bool, tms: bool, tdi: bool)
    requires |ms| == |ss| > 0
    ensures var o := HardwareRun(ms, ss, [ScanByte(tck, tms, tdi)]);
            && o.replies == []
            && o.states[0] == ms[0].step(ss[0], ScanByte(tck, tms, tdi))
            && forall i {:trigger ms[i]} :: 0 < i < |ms| ==>
                 o.states[i] == ms[i].step(ss[i], ScanByte(tck, tms, ms[i - 1].tdo(ss[i - 1]) == 0x31))
  {
    var c := ScanByte(tck, tms, tdi);
    RedirectSetsTdi(tck, tms, tdi, ONE);
    assert [c][1..] == [];
    var r := HardwareClock(ms, ss, c);
    forall i | 0 <= i < |ms|
      ensures r[i] == ms[i].step(ss[i], if i == 0 then c else ScanByte(tck, tms, ms[i - 1].tdo(ss[i - 1]) == 0x31))
    {
      HardwareAt(ms, ss, c, i);
      if i > 0 {
        RedirectSetsTdi(tck, tms, tdi, ms[i - 1].tdo(ss[i - 1]));
      }
    }
  }

  lemma LinkDecides<S>(ms: seq<Machine<S>>, ss: seq<S>, c: byte, i: nat)
    requires |ms| == |ss| && i + 1 < |ms| && IsScan(c) && ClockAll(ms, ss, c)[i] == HardwareClock(ms, ss, c)[i]
    ensures ClockAll(ms, ss, c)[i + 1] == HardwareClock(ms, ss, c)[i + 1] <==> LinkAgrees(ms, ss, c, i)
  {
    HardwareAt(ms, ss, c, i + 1);
    ClockAllAt(ms, ss, c, i + 1);
  }

  lemma {:induction false} AgreesAt<S>(ms: seq<Machine<S>>, ss: seq<S>, c: byte, k: nat)
    requires |ms| == |ss| && k < |ms| && IsScan(c) && forall i: nat :: i < k ==> LinkAgrees(ms, ss, c, i)
    ensures ClockAll(ms, ss, c)[k] == HardwareClock(ms, ss, c)[k]
  {
    if k == 0 {
      HardwareAt(ms, ss, c, 0);
      ClockAllAt(ms, ss, c, 0);
    } else {
      AgreesAt(ms, ss, c, k - 1);
      LinkDecides(ms, ss, c, k - 1);
    }
  }

  /** For every chain of any TAPs, one scan comes out as in hardware iff all links agree. */
  lemma ClockAgreesIff<S>(ms: seq<Machine<S>>, ss: seq<S>, c: byte)
    requires |ms| == |ss| && IsScan(c)
    ensures ClockAll(ms, ss, c) == HardwareClock(ms, ss, c) <==> forall i: nat :: i + 1 < |ms| ==> LinkAgrees(ms, ss, c, i)
  {
    if ClockAll(ms, ss, c) == HardwareClock(ms, ss, c) {
      forall i: nat | i + 1 < |ms|
        ensures LinkAgrees(ms, ss, c, i)
      {
        LinkDecides(ms, ss, c, i);
      }
    }
    if forall i: nat :: i + 1 < |ms| ==> LinkAgrees(ms, ss, c, i) {
      forall k: nat | k < |ms|
        ensures ClockAll(ms, ss, c)[k] == HardwareClock(ms, ss, c)[k]
      {
        AgreesAt(ms, ss, c, k);
      }
    }
  }

  // ----- when only replies count -------------------------------------------

  /** No buffer tells the two states of the TAP apart. */
  ghost predicate Alike<S>(m: Machine<S>, s: S, t: S) {
    forall commands: seq<byte> :: RunTap(m, s, commands).replies == RunTap(m, t, commands).replies
  }

  lemma AlikeSteps<S>(m: Machine<S>, s: S, t: S, c: byte)
    requires Alike(m, s, t) && c != READ
    ensures Alike(m, m.step(s, c), m.step(t, c))
  {
    forall commands: seq<byte>
      ensures RunTap(m, m.step(s, c), commands).replies == RunTap(m, m.step(t, c), commands).replies
    {
      assert ([c] + commands)[1..] == commands;
      assert RunTap(m, s, [c] + commands).replies == RunTap(m, t, [c] + commands).replies;
    }
  }

  lemma AlikeShows<S>(m: Machine<S>, s: S, t: S)
    requires Alike(m, s, t)
    ensures m.tdo(s) == m.tdo(t)
  {
    assert [READ][1..] == [];
    assert RunTap(m, s, [READ]).replies == [m.tdo(s)] && RunTap(m, t, [READ]).replies == [m.tdo(t)];
  }

  lemma AlikeThrough<S>(m: Machine<S>, s: S, t: S, u: S)
    requires Alike(m, s, t) && Alike(m, t, u)
    ensures Alike(m, s, u)
  {
    forall commands: seq<byte>
      ensures RunTap(m, s, commands).replies == RunTap(m, u, commands).replies
    {
      assert RunTap(m, s, commands).replies == RunTap(m, t, commands).replies;
    }
  }

  /** No reply depends on TDI but for that of rising edges. */
  ghost predicate SamplesVisibly<S(!new)>(m: Machine<S>, tck: S -> bool) {
    forall s, c: byte, v: byte :: IsScan(c) && !Rising(c, tck(s)) ==> Alike(m, m.step(s, Redirect(c, v)), m.step(s, c))
  }

  ghost predicate VisiblyCompliant<S(!new)>(ms: seq<Machine<S>>, tcks: seq<S -> bool>) {
    && |ms| == |tcks|
    && (forall i :: 0 < i < |ms| ==> SamplesVisibly(ms[i], tcks[i]))
    && (forall i :: 0 <= i < |ms| - 1 ==> Steady(ms[i], tcks[i]))
  }

  ghost predicate AllAlike<S>(ms: seq<Machine<S>>, ss: seq<S>, ts: seq<S>) {
    && |ms| == |ss| == |ts|
    && forall i :: 0 <= i < |ms| ==> Alike(ms[i], ss[i], ts[i])
  }

  lemma VisibleTail<S(!new)>(ms: seq<Machine<S>>, ss: seq<S>, ts: seq<S>, tcks: seq<S -> bool>, level: bool)
    requires AtLevel(ms, ss, tcks, level) && AtLevel(ms, ts, tcks, level) && ms != []
    requires VisiblyCompliant(ms, tcks) && AllAlike(ms, ss, ts)
    ensures AtLevel(ms[1..], ss[1..], tcks[1..], level) && AtLevel(ms[1..], ts[1..], tcks[1..], level)
    ensures VisiblyCompliant(ms[1..], tcks[1..]) && AllAlike(ms[1..], ss[1..], ts[1..])
    ensures |ms| > 1 ==> SamplesVisibly(ms[1..][0], tcks[1..][0]) && Steady(ms[0], tcks[0])
  {
  }

  lemma AlikeOneMore<S>(ms: seq<Machine<S>>, s: S, t: S, ss: seq<S>, ts: seq<S>)
    requires ms != [] && Alike(ms[0], s, t) && AllAlike(ms[1..], ss, ts)
    ensures AllAlike(ms, [s] + ss, [t] + ts)
  {
    forall i | 0 < i < |ms|
      ensures Alike(ms[i], ([s] + ss)[i], ([t] + ts)[i])
    {
      assert Alike(ms[1..][i - 1], ss[i - 1], ts[i - 1]);
    }
  }

  /** One TAP, given `d` by the server and `c` in hardware. */
  lemma AlikeAfter<S(!new)>(m: Machine<S>, tck: S -> bool, s: S, t: S, c: byte, d: byte)
    requires Alike(m, s, t) && c != READ && SameEdge(c, d, tck(t)) && (c != d ==> SamplesVisibly(m, tck))
    ensures Alike(m, m.step(s, d), m.step(t, c))
  {
    if c == d {
      AlikeSteps(m, s, t, c);
    } else {
      var v :| d == Redirect(c, v);
      AlikeSteps(m, s, t, d);
      AlikeThrough(m, m.step(s, d), m.step(t, d), m.step(t, c));
    }
  }

  lemma {:induction false} ClockIsAlike<S(!new)>(ms: seq<Machine<S>>, ss: seq<S>, ts: seq<S>, tcks: seq<S -> bool>,
                                                 level: bool, c: byte, d: byte)
    requires AtLevel(ms, ss, tcks, level) && AtLevel(ms, ts, tcks, level) && VisiblyCompliant(ms, tcks) && AllAlike(ms, ss, ts)
    requires c != READ && SameEdge(c, d, level) && (ms != [] && c != d ==> SamplesVisibly(ms[0], tcks[0]))
    ensures AllAlike(ms, ClockAll(ms, ss, d), HardwareClock(ms, ts, c))
    ensures AtLevel(ms, ClockAll(ms, ss, d), tcks, LevelAfter(c, level))
    ensures AtLevel(ms, HardwareClock(ms, ts, c), tcks, LevelAfter(c, level))
  {
    if ms != [] {
      var m, s, t := ms[0], ss[0], ts[0];
      var s', t' := m.step(s, d), m.step(t, c);
      SameEdgeSameLevel(c, d, level);
      assert Follows(m, tcks[0]) && tcks[0](s) == tcks[0](t) == level && Alike(m, s, t);
      AlikeAfter(m, tcks[0], s, t, c, d);
      VisibleTail(ms, ss, ts, tcks, level);
      var next, next' := c, d;
      if IsScan(c) {
        next, next' := Redirect(c, m.tdo(t)), Redirect(d, m.tdo(s'));
        RedirectKeepsTck(c, m.tdo(t));
        if |ms| > 1 {
          AlikeShows(m, s', t');
          SameEdgePassesOn(c, d, level, m.tdo(t), m.tdo(s'));
        }
      }
      if |ms| > 1 {
        ClockIsAlike(ms[1..], ss[1..], ts[1..], tcks[1..], level, next, next');
      }
      AlikeOneMore(ms, s', t', ClockAll(ms[1..], ss[1..], next'), HardwareClock(ms[1..], ts[1..], next));
      LevelOneMore(ms, s', ClockAll(ms[1..], ss[1..], next'), tcks, LevelAfter(c, level));
      LevelOneMore(ms, t', HardwareClock(ms[1..], ts[1..], next), tcks, LevelAfter(c, level));
    }
  }

  lemma SameEdgeSameLevel(c: byte, d: byte, level: bool)
    requires SameEdge(c, d, level) && c != READ
    ensures d != READ && IsScan(d) == IsScan(c) && LevelAfter(d, level) == LevelAfter(c, level)
  {
    if IsScan(c) && !Rising(c, level) {
      var v :| d == Redirect(c, v);
      RedirectKeepsTck(c, v);
    }
  }

  lemma LastIsAlike<S>(ms: seq<Machine<S>>, ss: seq<S>, ts: seq<S>)
    requires AllAlike(ms, ss, ts) && ms != []
    ensures LastTdo(ms, ss) == LastTdo(ms, ts)
  {
    AlikeShows(ms[|ms| - 1], ss[|ms| - 1], ts[|ms| - 1]);
  }

  /** A chain whose replies come from TAPs that sample visibly is answered as by hardware. */
  lemma {:induction false} VisibleChainReplies<S(!new)>(ms: seq<Machine<S>>, ss: seq<S>, ts: seq<S>, tcks: seq<S -> bool>,
                                                       level: bool, commands: seq<byte>)
    requires AtLevel(ms, ss, tcks, level) && AtLevel(ms, ts, tcks, level) && VisiblyCompliant(ms, tcks) && AllAlike(ms, ss, ts)
    ensures LockStep(ms, ss, commands).replies == HardwareRun(ms, ts, commands).replies
    decreases |commands|
  {
    if commands != [] && ms != [] {
      var c := commands[0];
      if c == READ {
        LastIsAlike(ms, ss, ts);
        VisibleChainReplies(ms, ss, ts, tcks, level, commands[1..]);
      } else {
        if IsScan(c) {
          RedirectToItself(c);
        }
        ClockIsAlike(ms, ss, ts, tcks, level, c, c);
        VisibleChainReplies(ms, ClockAll(ms, ss, c), HardwareClock(ms, ts, c), tcks, LevelAfter(c, level), commands[1..]);
      }
    }
  }

  lemma RedirectKeepsTck(c: byte, v: byte)
    requires IsScan(c)
    ensures TckBit(Redirect(c, v)) == TckBit(c)
  {
  }

  // ----- exactly which TAPs are safe next to all others --------------------

  /** A state of the TAP in question or of one built to notice a difference. */
  datatype Node<+S> = Device(state: S) | Tape(level: bool, bits: seq<bool>)

  /** What a tape shows. */
  function Shown(bits: seq<bool>): byte {
    if bits != [] && bits[0] then ONE else ZERO
  }

  function InNode<S>(m: Machine<S>): Machine<Node<S>> {
    Machine((x: Node<S>, c: byte) => match x
              case Device(s) => Device(m.step(s, c))
              case Tape(level, bits) => Tape(LevelAfter(c, level), bits),
            (x: Node<S>) => match x
              case Device(s) => m.tdo(s)
              case Tape(_, bits) => Shown(bits))
  }

  function NodeLevel<S>(tck: S -> bool): Node<S> -> bool {
    (x: Node<S>) => match x case Device(s) => tck(s) case Tape(level, _) => level
  }

  lemma InNodeFollows<S(!new)>(m: Machine<S>, tck: S -> bool)
    requires Follows(m, tck)
    ensures Follows(InNode(m), NodeLevel(tck))
  {
    forall x: Node<S>, c: byte | c != READ
      ensures NodeLevel(tck)(InNode(m).step(x, c)) == LevelAfter(c, NodeLevel(tck)(x))
    {
    }
  }

  lemma InNodeIsSteady<S(!new)>(m: Machine<S>, tck: S -> bool)
    requires Steady(m, tck)
    ensures Steady(InNode(m), NodeLevel(tck))
  {
    forall x: Node<S>, c: byte | Rising(c, NodeLevel(tck)(x))
      ensures InNode(m).tdo(InNode(m).step(x, c)) == ONE <==> InNode(m).tdo(x) == ONE
    {
    }
  }

  lemma InNodeSamples<S(!new)>(m: Machine<S>, tck: S -> bool)
    requires Samples(m, tck)
    ensures Samples(InNode(m), NodeLevel(tck))
  {
    forall x: Node<S>, c: byte, v: byte | IsScan(c) && !Rising(c, NodeLevel(tck)(x))
      ensures InNode(m).step(x, Redirect(c, v)) == InNode(m).step(x, c)
    {
      RedirectKeepsTck(c, v);
      if x.Device? {
        assert m.step(x.state, Redirect(c, v)) == m.step(x.state, c);
      } else {
        assert LevelAfter(Redirect(c, v), x.level) == LevelAfter(c, x.level);
      }
    }
  }

  /** A tape whose bits `next` decides; it starts over if it finds a foreign state. */
  function TapeMachine<S>(next: (bool, seq<bool>, byte) -> seq<bool>): Machine<Node<S>> {
    Machine((x: Node<S>, c: byte) =>
              if !IsScan(c) then x
              else if x.Device? then Tape(TckBit(c), [])
              else Tape(TckBit(c), next(x.level, x.bits, c)),
            (x: Node<S>) => if x.Tape? then Shown(x.bits) else ZERO)
  }

  function TapeLevel<S>(): Node<S> -> bool {
    (x: Node<S>) => x.Tape? && x.level
  }

  /** Holds the TDI bit of the last rising edge. */
  function Recorder<S>(): Machine<Node<S>> {
    TapeMachine((level, bits, c) => if Rising(c, level) then [c & 1 == 1] else bits)
  }

  function Rest(bits: seq<bool>): seq<bool> {
    if bits == [] then [] else bits[1..]
  }

  /** Shows one bit after the other; rising edges do not advance it. */
  function Player<S>(): Machine<Node<S>> {
    TapeMachine((level, bits, c) => if Rising(c, level) then bits else Rest(bits))
  }

  lemma TapeFollows<S(!new)>(next: (bool, seq<bool>, byte) -> seq<bool>)
    ensures Follows(TapeMachine<S>(next), TapeLevel<S>())
  {
    forall x: Node<S>, c: byte | c != READ
      ensures TapeLevel()(TapeMachine(next).step(x, c)) == LevelAfter(c, TapeLevel()(x))
    {
    }
  }

  lemma RecorderFollows<S(!new)>()
    ensures Follows(Recorder<S>(), TapeLevel<S>())
  {
    TapeFollows<S>((level, bits, c) => if Rising(c, level) then [c & 1 == 1] else bits);
  }

  lemma RecorderIgnores<S>(x: Node<S>, c: byte, v: byte)
    requires IsScan(c) && !Rising(c, TapeLevel()(x))
    ensures Recorder().step(x, Redirect(c, v)) == Recorder().step(x, c)
  {
    RedirectKeepsTck(c, v);
  }

  lemma RecorderSamples<S(!new)>()
    ensures Samples(Recorder<S>(), TapeLevel<S>())
  {
    forall x: Node<S>, c: byte, v: byte | IsScan(c) && !Rising(c, TapeLevel()(x))
      ensures Recorder().step(x, Redirect(c, v)) == Recorder().step(x, c)
    {
      RecorderIgnores(x, c, v);
    }
  }

  lemma PlayerIsSteady<S(!new)>()
    ensures Follows(Player<S>(), TapeLevel<S>()) && Steady(Player<S>(), TapeLevel<S>())
  {
    TapeFollows<S>((level, bits, c) => if Rising(c, level) then bits else Rest(bits));
  }

  /** One scan on two TAPs: the second sees the first's TDO of after the scan. */
  lemma ClockTwo<S>(m: Machine<S>, n: Machine<S>, s: S, r: S, c: byte)
    requires IsScan(c)
    ensures ClockAll([m, n], [s, r], c) == [m.step(s, c), n.step(r, Redirect(c, m.tdo(m.step(s, c))))]
  {
    assert [m, n][1..] == [n] && [s, r][1..] == [r];
    ClockOne(n, r, Redirect(c, m.tdo(m.step(s, c))));
  }

  /** In hardware, the one of before. */
  lemma HardwareTwo<S>(m: Machine<S>, n: Machine<S>, s: S, r: S, c: byte)
    requires IsScan(c)
    ensures HardwareClock([m, n], [s, r], c) == [m.step(s, c), n.step(r, Redirect(c, m.tdo(s)))]
  {
    assert [m, n][1..] == [n] && [s, r][1..] == [r];
    ClockOne(n, r, Redirect(c, m.tdo(s)));
  }

  lemma ClockOne<S>(n: Machine<S>, r: S, c: byte)
    ensures ClockAll([n], [r], c) == HardwareClock([n], [r], c) == [n.step(r, c)]
  {
    assert [n][1..] == [] && [r][1..] == [];
  }

  /** ... and then a read. */
  lemma ScanAndRead<S>(m: Machine<S>, n: Machine<S>, s: S, r: S, c: byte)
    requires IsScan(c)
    ensures LockStep([m, n], [s, r], [c]).states[1] == n.step(r, Redirect(c, m.tdo(m.step(s, c))))
    ensures HardwareRun([m, n], [s, r], [c]).states[1] == n.step(r, Redirect(c, m.tdo(s)))
    ensures LockStep([m, n], [s, r], [c, READ]).replies == [n.tdo(n.step(r, Redirect(c, m.tdo(m.step(s, c)))))]
    ensures HardwareRun([m, n], [s, r], [c, READ]).replies == [n.tdo(n.step(r, Redirect(c, m.tdo(s))))]
  {
    ClockTwo(m, n, s, r, c);
    HardwareTwo(m, n, s, r, c);
    assert [c][1..] == [] && [c, READ][1..] == [READ] && [READ][1..] == [];
  }

  /** Any buffer on two TAPs comes out as in hardware. */
  ghost predicate AsInHardware<S>(m: Machine<S>, n: Machine<S>, s: S, r: S) {
    forall commands: seq<byte> :: LockStep([m, n], [s, r], commands) == HardwareRun([m, n], [s, r], commands)
  }

  /** Any buffer on two TAPs is answered as by hardware. */
  ghost predicate AnswersAsHardware<S>(m: Machine<S>, n: Machine<S>, s: S, r: S) {
    forall commands: seq<byte> :: LockStep([m, n], [s, r], commands).replies == HardwareRun([m, n], [s, r], commands).replies
  }

  lemma PairIsLevel<S(!new)>(m: Machine<S>, n: Machine<S>, mLevel: S -> bool, nLevel: S -> bool, s: S, r: S)
    requires Follows(m, mLevel) && Follows(n, nLevel) && mLevel(s) == nLevel(r)
    ensures AtLevel([m, n], [s, r], [mLevel, nLevel], mLevel(s)) && AllAlike([m, n], [s, r], [s, r])
  {
  }

  lemma PairIsCompliant<S(!new)>(m: Machine<S>, n: Machine<S>, mLevel: S -> bool, nLevel: S -> bool)
    requires Steady(m, mLevel) && Samples(n, nLevel)
    ensures Compliant([m, n], [mLevel, nLevel])
  {
  }

  lemma PairIsVisiblyCompliant<S(!new)>(m: Machine<S>, n: Machine<S>, mLevel: S -> bool, nLevel: S -> bool)
    requires Steady(m, mLevel) && SamplesVisibly(n, nLevel)
    ensures VisiblyCompliant([m, n], [mLevel, nLevel])
  {
  }

  lemma PairIsHardware<S(!new)>(m: Machine<S>, n: Machine<S>, mLevel: S -> bool, nLevel: S -> bool, s: S, r: S)
    requires Follows(m, mLevel) && Steady(m, mLevel) && Follows(n, nLevel) && Samples(n, nLevel) && mLevel(s) == nLevel(r)
    ensures AsInHardware(m, n, s, r)
  {
    PairIsLevel(m, n, mLevel, nLevel, s, r);
    PairIsCompliant(m, n, mLevel, nLevel);
    forall commands: seq<byte>
      ensures LockStep([m, n], [s, r], commands) == HardwareRun([m, n], [s, r], commands)
    {
      CompliantChainIsHardware([m, n], [s, r], [mLevel, nLevel], mLevel(s), commands);
    }
  }

  lemma PairAnswers<S(!new)>(m: Machine<S>, n: Machine<S>, mLevel: S -> bool, nLevel: S -> bool, s: S, r: S)
    requires Follows(m, mLevel) && Steady(m, mLevel) && Follows(n, nLevel) && SamplesVisibly(n, nLevel) && mLevel(s) == nLevel(r)
    ensures AnswersAsHardware(m, n, s, r)
  {
    PairIsLevel(m, n, mLevel, nLevel, s, r);
    PairIsVisiblyCompliant(m, n, mLevel, nLevel);
    forall commands: seq<byte>
      ensures LockStep([m, n], [s, r], commands).replies == HardwareRun([m, n], [s, r], commands).replies
    {
      VisibleChainReplies([m, n], [s, r], [s, r], [mLevel, nLevel], mLevel(s), commands);
    }
  }

  // ----- in front ----------------------------------------------------------

  /** The TAP can stand in front of every TAP that samples on the rising edge. */
  ghost predicate SafeInFront<S(!new)>(m: Machine<S>, tck: S -> bool) {
    forall n: Machine<Node<S>>, level: Node<S> -> bool, s: S, r: Node<S> ::
      Follows(n, level) && Samples(n, level) && level(r) == tck(s) ==> AsInHardware(InNode(m), n, Device(s), r)
  }

  /** The same for replies only, and in front of all that sample visibly. */
  ghost predicate AnswersInFront<S(!new)>(m: Machine<S>, tck: S -> bool) {
    forall n: Machine<Node<S>>, level: Node<S> -> bool, s: S, r: Node<S> ::
      Follows(n, level) && SamplesVisibly(n, level) && level(r) == tck(s) ==> AnswersAsHardware(InNode(m), n, Device(s), r)
  }

  lemma SteadyIsSafe<S(!new)>(m: Machine<S>, tck: S -> bool)
    requires Follows(m, tck) && Steady(m, tck)
    ensures SafeInFront(m, tck) && AnswersInFront(m, tck)
  {
    InNodeFollows(m, tck);
    InNodeIsSteady(m, tck);
    forall n: Machine<Node<S>>, level: Node<S> -> bool, s: S, r: Node<S>
      | Follows(n, level) && Samples(n, level) && level(r) == tck(s)
      ensures AsInHardware(InNode(m), n, Device(s), r)
    {
      PairIsHardware(InNode(m), n, NodeLevel(tck), level, Device(s), r);
    }
    forall n: Machine<Node<S>>, level: Node<S> -> bool, s: S, r: Node<S>
      | Follows(n, level) && SamplesVisibly(n, level) && level(r) == tck(s)
      ensures AnswersAsHardware(InNode(m), n, Device(s), r)
    {
      PairAnswers(InNode(m), n, NodeLevel(tck), level, Device(s), r);
    }
  }

  lemma RecorderAnswers<S(!new)>(m: Machine<S>, tck: S -> bool, s: S, c: byte)
    requires Rising(c, tck(s)) && !(m.tdo(m.step(s, c)) == ONE <==> m.tdo(s) == ONE)
    ensures !AnswersAsHardware(InNode(m), Recorder<S>(), Device(s), Tape(false, []))
  {
    var n := Recorder<S>();
    ScanAndRead(InNode(m), n, Device(s), Tape(false, []), c);
    RecorderHolds<S>(c, m.tdo(s));
    RecorderHolds<S>(c, m.tdo(m.step(s, c)));
    assert LockStep([InNode(m), n], [Device(s), Tape(false, [])], [c, READ]).replies == [Shown([m.tdo(m.step(s, c)) == ONE])];
    assert HardwareRun([InNode(m), n], [Device(s), Tape(false, [])], [c, READ]).replies == [Shown([m.tdo(s) == ONE])];
  }

  lemma RecorderHolds<S>(c: byte, v: byte)
    requires Rising(c, false)
    ensures Recorder<S>().step(Tape(false, []), Redirect(c, v)) == Tape(true, [v == ONE])
  {
    RedirectKeepsTck(c, v);
  }

  lemma SamplesIsVisible<S(!new)>(m: Machine<S>, tck: S -> bool)
    requires Samples(m, tck)
    ensures SamplesVisibly(m, tck)
  {
    forall s, c: byte, v: byte | IsScan(c) && !Rising(c, tck(s))
      ensures Alike(m, m.step(s, Redirect(c, v)), m.step(s, c))
    {
      assert m.step(s, Redirect(c, v)) == m.step(s, c);
    }
  }

  lemma UnsteadyIsUnsafe<S(!new)>(m: Machine<S>, tck: S -> bool, s: S, c: byte)
    requires Rising(c, tck(s)) && !(m.tdo(m.step(s, c)) == ONE <==> m.tdo(s) == ONE)
    ensures !SafeInFront(m, tck) && !AnswersInFront(m, tck)
  {
    var n, r := Recorder<S>(), Tape(false, []);
    RecorderFollows<S>();
    RecorderSamples<S>();
    SamplesIsVisible(n, TapeLevel<S>());
    RecorderAnswers(m, tck, s, c);
    assert TapeLevel<S>()(r) == tck(s);
    var commands: seq<byte> :| LockStep([InNode(m), n], [Device(s), r], commands).replies
                            != HardwareRun([InNode(m), n], [Device(s), r], commands).replies;
    assert !AsInHardware(InNode(m), n, Device(s), r);
  }

  /** A TAP is safe in front of all of them iff its own TDO is steady on that edge, and
      it makes no difference whether states count or replies only. */
  lemma FrontIff<S(!new)>(m: Machine<S>, tck: S -> bool)
    requires Follows(m, tck)
    ensures Steady(m, tck) <==> SafeInFront(m, tck)
    ensures Steady(m, tck) <==> AnswersInFront(m, tck)
  {
    if Steady(m, tck) {
      SteadyIsSafe(m, tck);
    } else {
      var s, c: byte :| Rising(c, tck(s)) && !(m.tdo(m.step(s, c)) == ONE <==> m.tdo(s) == ONE);
      UnsteadyIsUnsafe(m, tck, s, c);
    }
  }

  // ----- behind, states included -------------------------------------------

  lemma SamplerNotices<S(!new)>(n: Machine<S>, tck: S -> bool, s: S, c: byte, v: byte)
    requires IsScan(c) && !Rising(c, tck(s)) && n.step(s, Redirect(c, v)) != n.step(s, c)
    ensures !AsInHardware(Player<S>(), InNode(n), Tape(tck(s), [false, true]), Device(s))
  {
    BothBits(c, v);
    var m: Machine<Node<S>>, x: Node<S> := Player(), Tape(tck(s), [false, true]);
    assert m.tdo(x) == ZERO && m.tdo(m.step(x, c)) == ONE;
    ScanAndRead(m, InNode(n), x, Device(s), c);
    assert LockStep([m, InNode(n)], [x, Device(s)], [c]).states[1] == Device(n.step(s, Redirect(c, ONE)));
    assert HardwareRun([m, InNode(n)], [x, Device(s)], [c]).states[1] == Device(n.step(s, Redirect(c, ZERO)));
  }

  lemma BothBits(c: byte, v: byte)
    requires IsScan(c) && Redirect(c, v) != c
    ensures || (Redirect(c, v) == Redirect(c, ZERO) && c == Redirect(c, ONE))
            || (Redirect(c, v) == Redirect(c, ONE) && c == Redirect(c, ZERO))
  {
  }

  /** The TAP can stand behind every TAP with a steady TDO. */
  ghost predicate SafeBehind<S(!new)>(n: Machine<S>, tck: S -> bool) {
    forall m: Machine<Node<S>>, level: Node<S> -> bool, r: Node<S>, s: S ::
      Follows(m, level) && Steady(m, level) && level(r) == tck(s) ==> AsInHardware(m, InNode(n), r, Device(s))
  }

  lemma SamplerIsSafe<S(!new)>(n: Machine<S>, tck: S -> bool)
    requires Follows(n, tck) && Samples(n, tck)
    ensures SafeBehind(n, tck)
  {
    InNodeFollows(n, tck);
    InNodeSamples(n, tck);
    forall m: Machine<Node<S>>, level: Node<S> -> bool, r: Node<S>, s: S
      | Follows(m, level) && Steady(m, level) && level(r) == tck(s)
      ensures AsInHardware(m, InNode(n), r, Device(s))
    {
      PairIsHardware(m, InNode(n), level, NodeLevel(tck), r, Device(s));
    }
  }

  lemma OtherEdgesAreUnsafe<S(!new)>(n: Machine<S>, tck: S -> bool, s: S, c: byte, v: byte)
    requires IsScan(c) && !Rising(c, tck(s)) && n.step(s, Redirect(c, v)) != n.step(s, c)
    ensures !SafeBehind(n, tck)
  {
    PlayerIsSteady<S>();
    SamplerNotices(n, tck, s, c, v);
    assert TapeLevel<S>()(Tape(tck(s), [false, true])) == tck(s);
  }

  /** Dually, a TAP is safe behind all of those iff it samples TDI on the rising edge only. */
  lemma BackIff<S(!new)>(n: Machine<S>, tck: S -> bool)
    requires Follows(n, tck)
    ensures Samples(n, tck) <==> SafeBehind(n, tck)
  {
    if Samples(n, tck) {
      SamplerIsSafe(n, tck);
    } else {
      var s, c: byte, v: byte :| IsScan(c) && !Rising(c, tck(s)) && n.step(s, Redirect(c, v)) != n.step(s, c);
      OtherEdgesAreUnsafe(n, tck, s, c, v);
    }
  }

  // ----- behind, replies only ----------------------------------------------

  /** What the TAP behind a player is given: the bit of after each scan, or of before. */
  function Feed(commands: seq<byte>, level: bool, bits: seq<bool>, after: bool): seq<byte> {
    if commands == [] then []
    else
      var c := commands[0];
      if !IsScan(c) then [c] + Feed(commands[1..], level, bits, after)
      else
        var bits' := if Rising(c, level) then bits else Rest(bits);
        [Redirect(c, Shown(if after then bits' else bits))] + Feed(commands[1..], TckBit(c), bits', after)
  }

  lemma PlayerSteps<S>(n: Machine<S>, s: S, c: byte, level: bool, bits: seq<bool>)
    requires c != READ
    ensures var bits' := if Rising(c, level) || !IsScan(c) then bits else Rest(bits);
            var ms, ss := [Player<S>(), InNode(n)], [Tape(level, bits), Device(s)];
            var next := Tape(LevelAfter(c, level), bits');
            && ClockAll(ms, ss, c) == [next, Device(n.step(s, if IsScan(c) then Redirect(c, Shown(bits')) else c))]
            && HardwareClock(ms, ss, c) == [next, Device(n.step(s, if IsScan(c) then Redirect(c, Shown(bits)) else c))]
  {
    var m, x := Player<S>(), Tape(level, bits);
    if IsScan(c) {
      ClockTwo(m, InNode(n), x, Device(s), c);
      HardwareTwo(m, InNode(n), x, Device(s), c);
    } else {
      assert [m, InNode(n)][1..] == [InNode(n)] && [x, Device(s)][1..] == [Device(s)];
      ClockOne(InNode(n), Device(s), c);
    }
  }

  lemma {:induction false} ServerFeeds<S>(n: Machine<S>, s: S, commands: seq<byte>, level: bool, bits: seq<bool>)
    ensures LockStep([Player<S>(), InNode(n)], [Tape(level, bits), Device(s)], commands).replies
         == RunTap(n, s, Feed(commands, level, bits, true)).replies
    decreases |commands|
  {
    if commands != [] {
      var c := commands[0];
      if c == READ {
        ServerFeeds(n, s, commands[1..], level, bits);
      } else {
        PlayerSteps(n, s, c, level, bits);
        var bits' := if Rising(c, level) || !IsScan(c) then bits else Rest(bits);
        ServerFeeds(n, n.step(s, if IsScan(c) then Redirect(c, Shown(bits')) else c), commands[1..], LevelAfter(c, level), bits');
      }
    }
  }

  lemma {:induction false} HardwareFeeds<S>(n: Machine<S>, s: S, commands: seq<byte>, level: bool, bits: seq<bool>)
    ensures HardwareRun([Player<S>(), InNode(n)], [Tape(level, bits), Device(s)], commands).replies
         == RunTap(n, s, Feed(commands, level, bits, false)).replies
    decreases |commands|
  {
    if commands != [] {
      var c := commands[0];
      if c == READ {
        HardwareFeeds(n, s, commands[1..], level, bits);
      } else {
        PlayerSteps(n, s, c, level, bits);
        var bits' := if Rising(c, level) || !IsScan(c) then bits else Rest(bits);
        HardwareFeeds(n, n.step(s, if IsScan(c) then Redirect(c, Shown(bits)) else c), commands[1..], LevelAfter(c, level), bits');
      }
    }
  }

  /** The TAP answers as in hardware behind every TAP with a steady TDO. */
  ghost predicate AnswersBehind<S(!new)>(n: Machine<S>, tck: S -> bool) {
    forall m: Machine<Node<S>>, level: Node<S> -> bool, r: Node<S>, s: S ::
      Follows(m, level) && Steady(m, level) && level(r) == tck(s) ==> AnswersAsHardware(m, InNode(n), r, Device(s))
  }

  ghost predicate FeedsAgree<S(!new)>(n: Machine<S>, tck: S -> bool) {
    forall s: S, commands: seq<byte>, bits: seq<bool> ::
      RunTap(n, s, Feed(commands, tck(s), bits, true)).replies == RunTap(n, s, Feed(commands, tck(s), bits, false)).replies
  }

  lemma AnswersMeansFeeds<S(!new)>(n: Machine<S>, tck: S -> bool)
    requires AnswersBehind(n, tck)
    ensures FeedsAgree(n, tck)
  {
    PlayerIsSteady<S>();
    forall s: S, commands: seq<byte>, bits: seq<bool>
      ensures RunTap(n, s, Feed(commands, tck(s), bits, true)).replies == RunTap(n, s, Feed(commands, tck(s), bits, false)).replies
    {
      assert TapeLevel<S>()(Tape(tck(s), bits)) == tck(s);
      assert AnswersAsHardware(Player<S>(), InNode(n), Tape(tck(s), bits), Device(s));
      ServerFeeds(n, s, commands, tck(s), bits);
      HardwareFeeds(n, s, commands, tck(s), bits);
    }
  }

  /** The server never passes on the bit that a player shows first, if no edge rises:
      so, if hardware answers alike, that bit does not matter, as long as what follows
      comes from a player, too. */
  lemma FirstIsInvisible<S(!new)>(n: Machine<S>, tck: S -> bool, s: S, c: byte, x: bool, commands: seq<byte>,
                                  bits: seq<bool>)
    requires FeedsAgree(n, tck) && IsScan(c) && !Rising(c, tck(s))
    ensures RunTap(n, n.step(s, Redirect(c, Shown([x]))), Feed(commands, TckBit(c), bits, false)).replies
         == RunTap(n, n.step(s, Redirect(c, Shown(bits))), Feed(commands, TckBit(c), bits, true)).replies
  {
    var all := [c] + commands;
    assert all[1..] == commands && Rest([x] + bits) == bits && Shown([x] + bits) == Shown([x]);
    var before, after := Feed(all, tck(s), [x] + bits, false), Feed(all, tck(s), [x] + bits, true);
    assert before[1..] == Feed(commands, TckBit(c), bits, false);
    assert after[1..] == Feed(commands, TckBit(c), bits, true);
    assert RunTap(n, s, before).replies == RunTap(n, s, after).replies;
  }

  lemma BitIsInvisible<S(!new)>(n: Machine<S>, tck: S -> bool, s: S, c: byte, v: byte, w: byte,
                                commands: seq<byte>, bits: seq<bool>)
    requires FeedsAgree(n, tck) && IsScan(c) && !Rising(c, tck(s))
    ensures RunTap(n, n.step(s, Redirect(c, v)), Feed(commands, TckBit(c), bits, false)).replies
         == RunTap(n, n.step(s, Redirect(c, w)), Feed(commands, TckBit(c), bits, false)).replies
  {
    OnlyTheBit(c, v);
    OnlyTheBit(c, w);
    FirstIsInvisible(n, tck, s, c, v == ONE, commands, bits);
    FirstIsInvisible(n, tck, s, c, w == ONE, commands, bits);
  }

  lemma OnlyTheBit(c: byte, v: byte)
    requires IsScan(c)
    ensures Redirect(c, v) == Redirect(c, Shown([v == ONE]))
  {
  }

  /** While TCK is high, the player's current bit does not matter. */
  lemma {:induction false} HighBitIsInvisible<S(!new)>(n: Machine<S>, tck: S -> bool, s: S, commands: seq<byte>,
                                                       bits: seq<bool>, b: bool)
    requires FeedsAgree(n, tck) && Follows(n, tck) && tck(s)
    ensures RunTap(n, s, Feed(commands, true, bits, false)).replies
         == RunTap(n, s, Feed(commands, true, [b] + Rest(bits), false)).replies
    decreases |commands|
  {
    if commands != [] {
      var c := commands[0];
      if c == READ {
        HighBitIsInvisible(n, tck, s, commands[1..], bits, b);
      } else if !IsScan(c) {
        assert tck(n.step(s, c)) == LevelAfter(c, tck(s));
        HighBitIsInvisible(n, tck, n.step(s, c), commands[1..], bits, b);
      } else {
        assert Rest([b] + Rest(bits)) == Rest(bits);
        BitIsInvisible(n, tck, s, c, Shown(bits), Shown([b] + Rest(bits)), commands[1..], Rest(bits));
      }
    }
  }

  /** The TDI bits of a buffer, with that of a rising edge held for the scan behind it. */
  function Tidy(commands: seq<byte>, level: bool): seq<bool> {
    if commands == [] then []
    else
      var c := commands[0];
      if !IsScan(c) then Tidy(commands[1..], level)
      else
        var more := Tidy(commands[1..], TckBit(c));
        [c & 1 == 1] + if Rising(c, level) then Rest(more) else more
  }

  /** So any buffer is answered like one that a player could have sent. */
  lemma {:induction false} TidyAnswers<S(!new)>(n: Machine<S>, tck: S -> bool, s: S, commands: seq<byte>)
    requires FeedsAgree(n, tck) && Follows(n, tck)
    ensures RunTap(n, s, commands).replies == RunTap(n, s, Feed(commands, tck(s), Tidy(commands, tck(s)), false)).replies
    decreases |commands|
  {
    if commands != [] {
      var c, rest := commands[0], commands[1..];
      if c == READ {
        TidyAnswers(n, tck, s, rest);
      } else {
        assert tck(n.step(s, c)) == LevelAfter(c, tck(s));
        TidyAnswers(n, tck, n.step(s, c), rest);
        if IsScan(c) {
          var more := Tidy(rest, TckBit(c));
          SameBit(c, if Rising(c, tck(s)) then Rest(more) else more);
          if Rising(c, tck(s)) {
            HighBitIsInvisible(n, tck, n.step(s, c), rest, more, c & 1 == 1);
          }
        }
      }
    }
  }

  lemma SameBit(c: byte, more: seq<bool>)
    requires IsScan(c)
    ensures Redirect(c, Shown([c & 1 == 1] + more)) == c && Rest([c & 1 == 1] + more) == more
  {
  }

  lemma AnswersMeansVisible<S(!new)>(n: Machine<S>, tck: S -> bool, s: S, c: byte, v: byte)
    requires FeedsAgree(n, tck) && Follows(n, tck) && IsScan(c) && !Rising(c, tck(s))
    ensures Alike(n, n.step(s, Redirect(c, v)), n.step(s, c))
  {
    var s', t := n.step(s, Redirect(c, v)), n.step(s, c);
    RedirectKeepsTck(c, v);
    assert tck(s') == tck(t) == TckBit(c);
    SameBit(c, []);
    forall commands: seq<byte>
      ensures RunTap(n, s', commands).replies == RunTap(n, t, commands).replies
    {
      var bits := Tidy(commands, TckBit(c));
      TidyAnswers(n, tck, s', commands);
      TidyAnswers(n, tck, t, commands);
      BitIsInvisible(n, tck, s, c, v, Shown([c & 1 == 1] + []), commands, bits);
    }
  }

  lemma InNodeRuns<S>(n: Machine<S>, s: S, commands: seq<byte>)
    ensures RunTap(InNode(n), Device(s), commands).replies == RunTap(n, s, commands).replies
    decreases |commands|
  {
    if commands != [] {
      InNodeRuns(n, if commands[0] == READ then s else n.step(s, commands[0]), commands[1..]);
    }
  }

  lemma InNodeSamplesVisibly<S(!new)>(n: Machine<S>, tck: S -> bool)
    requires SamplesVisibly(n, tck)
    ensures SamplesVisibly(InNode(n), NodeLevel(tck))
  {
    forall x: Node<S>, c: byte, v: byte | IsScan(c) && !Rising(c, NodeLevel(tck)(x))
      ensures Alike(InNode(n), InNode(n).step(x, Redirect(c, v)), InNode(n).step(x, c))
    {
      RedirectKeepsTck(c, v);
      if x.Device? {
        var s, t := n.step(x.state, Redirect(c, v)), n.step(x.state, c);
        assert Alike(n, s, t);
        forall commands: seq<byte>
          ensures RunTap(InNode(n), Device(s), commands).replies == RunTap(InNode(n), Device(t), commands).replies
        {
          InNodeRuns(n, s, commands);
          InNodeRuns(n, t, commands);
        }
      } else {
        assert LevelAfter(Redirect(c, v), x.level) == LevelAfter(c, x.level);
      }
    }
  }

  lemma VisibleSamplerAnswers<S(!new)>(n: Machine<S>, tck: S -> bool)
    requires Follows(n, tck) && SamplesVisibly(n, tck)
    ensures AnswersBehind(n, tck)
  {
    InNodeFollows(n, tck);
    InNodeSamplesVisibly(n, tck);
    forall m: Machine<Node<S>>, level: Node<S> -> bool, r: Node<S>, s: S
      | Follows(m, level) && Steady(m, level) && level(r) == tck(s)
      ensures AnswersAsHardware(m, InNode(n), r, Device(s))
    {
      PairAnswers(m, InNode(n), level, NodeLevel(tck), r, Device(s));
    }
  }

  /** If only replies count, the TAP may look at TDI elsewhere, but exactly as long as no
      reply to any later buffer depends on it. */
  lemma BackAnswersIff<S(!new)>(n: Machine<S>, tck: S -> bool)
    requires Follows(n, tck)
    ensures SamplesVisibly(n, tck) <==> AnswersBehind(n, tck)
  {
    if SamplesVisibly(n, tck) {
      VisibleSamplerAnswers(n, tck);
    }
    if AnswersBehind(n, tck) {
      AnswersMeansFeeds(n, tck);
      forall s, c: byte, v: byte | IsScan(c) && !Rising(c, tck(s))
        ensures Alike(n, n.step(s, Redirect(c, v)), n.step(s, c))
      {
        AnswersMeansVisible(n, tck, s, c, v);
      }
    }
  }
}
