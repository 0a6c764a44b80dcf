/** Reading a Spike log into trace entries.

The log comes as lines classified by the three regular expressions, in the order
in which the reader tries them. The reader is a state machine that yields an entry
when it is left behind; the specification cuts the log into segments instead. It
is proved that both agree, what each entry holds, that the lines behind the first
ecall do not matter, and that the later filter loses no commit. */
module SpikeLog {
  import Collections
  import opened Wrappers

  /** A line by its first match: an instruction, an illegal-instruction trap, a commit
      (register already by its ABI name, "csr:value" if both are there), or neither. */
  datatype Kind =
    | Core(pc: string, disasm: string, binary: string)
    | Trap
    | Commit(gpr: string, csr: Option<string>, mode: string)
    | Other

  datatype Line = Line(endsTrampoline: bool, kind: Kind)

  /** The fields of a trace entry, and what the reader yields. */
  datatype EntryV = EntryV(pc: string, disasm: string, binary: string, gpr: seq<string>, csr: seq<string>, mode: string)

  datatype Yield = Yield(entry: EntryV, illegal: bool)

  // ----- the log in segments -----------------------------------------------

  predicate IsStop(line: Line) {
    line.kind.Core? || line.kind.Trap?
  }

  predicate IsEcall(line: Line) {
    line.kind.Core? && line.kind.disasm == "ecall"
  }

  /** The length of the part before the first instruction or trap. */
  function Stop(s: seq<Line>): (n: nat)
    ensures n <= |s| && (n < |s| ==> IsStop(s[n]))
  {
    if s == [] || IsStop(s[0]) then 0 else 1 + Stop(s[1..])
  }

  lemma {:induction false} StopIsFirst(s: seq<Line>, k: nat)
    requires k < Stop(s)
    ensures !IsStop(s[k])
  {
    if k > 0 {
      StopIsFirst(s[1..], k - 1);
    }
  }

  function Begin(line: Line): EntryV
    requires line.kind.Core?
  {
    EntryV(line.kind.pc, line.kind.disasm, line.kind.binary, [], [], "")
  }

  function AddLine(e: EntryV, line: Line): EntryV {
    match line.kind
    case Commit(gpr, csr, mode) =>
      e.(gpr := e.gpr + [gpr], csr := if csr.Some? then e.csr + [csr.value] else e.csr, mode := mode)
    case _ => e
  }

  function AddAll(e: EntryV, s: seq<Line>): EntryV
    decreases |s|
  {
    if s == [] then e else AddAll(AddLine(e, s[0]), s[1..])
  }

  /** An entry with the effects that follow it. */
  function Complete(e: EntryV, rest: seq<Line>): Yield {
    var n := Stop(rest);
    Yield(AddAll(e, rest[..n]), n < |rest| && rest[n].kind.Trap?)
  }

  /** What the log holds once the trampoline is over. */
  function Entries(s: seq<Line>): seq<Yield> {
    if s == [] then []
    else if !s[0].kind.Core? then Entries(s[1..])
    else if IsEcall(s[0]) then [Yield(Begin(s[0]), false)]
    else [Complete(Begin(s[0]), s[1..])] + Entries(s[1..])
  }

  function AfterTrampoline(s: seq<Line>): seq<Line> {
    if s == [] then [] else if s[0].endsTrampoline then s[1..] else AfterTrampoline(s[1..])
  }

  function Trace(s: seq<Line>): seq<Yield> {
    Entries(AfterTrampoline(s))
  }

  // ----- the reader --------------------------------------------------------

  class TraceEntry {
    const pc: string
    const disasm: string
    const binary: string
    var gpr: seq<string>
    var csr: seq<string>
    var mode: string

    ghost function View(): EntryV
      reads this
    {
      EntryV(pc, disasm, binary, gpr, csr, mode)
    }

    /** `read_spike_instr`. */
    constructor (line: Line)
      requires line.kind.Core?
      ensures View() == Begin(line)
    {
      pc, disasm, binary := line.kind.pc, line.kind.disasm, line.kind.binary;
      gpr, csr, mode := [], [], "";
    }

    method AddCommit(line: Line)
      modifies this
      ensures View() == AddLine(old(View()), line)
    {
      match line.kind
      case Commit(g, c, m) =>
        gpr := gpr + [g];
        if c.Some? {
          csr := csr + [c.value];
        }
        mode := m;
      case _ =>
    }
  }

  /** The entries that have been yielded, with their flags. */
  ghost function Views(out: seq<TraceEntry>, illegal: seq<bool>): (r: seq<Yield>)
    requires |out| == |illegal|
    reads out
    ensures |r| == |out|
  {
    seq(|out|, i requires 0 <= i < |out| reads out => Yield(out[i].View(), illegal[i]))
  }

  ghost function Held(instr: TraceEntry?): Option<EntryV>
    reads instr
  {
    if instr == null then None else Some(instr.View())
  }

  /** What is still to come with an entry in hand. */
  function Pending(held: Option<EntryV>, rest: seq<Line>): seq<Yield> {
    if held == None then Entries(rest) else [Complete(held.value, rest)] + Entries(rest)
  }

  /** Before the end of the trampoline, behind it, and after an ecall. */
  datatype State = InTrampoline | Running | Stopped

  /** What is still to come. */
  function ToCome(state: State, held: Option<EntryV>, rest: seq<Line>): seq<Yield> {
    match state
    case InTrampoline => Trace(rest)
    case Running => Pending(held, rest)
    case Stopped => InHand(held)
  }

  /** What the end of the loop leaves to be yielded. */
  function InHand(held: Option<EntryV>): seq<Yield> {
    if held == None then [] else [Yield(held.value, false)]
  }

  /** A line that is no instruction and no trap goes into the entry. */
  lemma AbsorbLine(e: EntryV, rest: seq<Line>)
    requires rest != [] && !IsStop(rest[0])
    ensures Pending(Some(e), rest) == Pending(Some(AddLine(e, rest[0])), rest[1..])
  {
    var n := Stop(rest);
    assert rest[..n][0] == rest[0] && rest[..n][1..] == rest[1..][..n - 1];
  }

  /** An instruction or a trap ends the entry. */
  lemma EndEntry(e: EntryV, rest: seq<Line>)
    requires rest != [] && IsStop(rest[0])
    ensures Pending(Some(e), rest)
         == [Yield(e, rest[0].kind.Trap?)] + if rest[0].kind.Trap? then Pending(None, rest[1..]) else Pending(None, rest)
  {
  }

  lemma StartEntry(rest: seq<Line>)
    requires rest != [] && rest[0].kind.Core?
    ensures Pending(None, rest)
         == if IsEcall(rest[0]) then InHand(Some(Begin(rest[0]))) else Pending(Some(Begin(rest[0])), rest[1..])
  {
  }

  ghost function Shown(y: Option<bool>, instr: TraceEntry?): seq<Yield>
    reads instr
  {
    if y == None || instr == null then [] else [Yield(instr.View(), y.value)]
  }

  function AfterInstr(line: Line): State {
    if IsEcall(line) then Stopped else Running
  }

  /** The work on one line: in the TRAMPOLINE state, in the INSTR state without an entry
      in hand, in the EFFECT state with one. The entry in hand may be yielded, with its
      flag. */
  method ReadLine(state: State, instr: TraceEntry?, line: Line, ghost rest: seq<Line>)
    returns (after: State, next: TraceEntry?, y: Option<bool>)
    requires rest != [] && rest[0] == line && state != Stopped && (state == InTrampoline ==> instr == null)
    modifies instr
    ensures ToCome(state, old(Held(instr)), rest) == Shown(y, instr) + ToCome(after, Held(next), rest[1..])
    ensures after == InTrampoline ==> next == null
    ensures next == null || fresh(next) || (next == instr && y == None)
    ensures y.Some? ==> instr != null
  {
    if state == InTrampoline {
      return if line.endsTrampoline then Running else InTrampoline, null, None;
    }
    if instr == null {
      if !line.kind.Core? {
        return Running, null, None;
      }
      StartEntry(rest);
      next := new TraceEntry(line);
      return AfterInstr(line), next, None;
    }
    if line.kind.Core? {
      EndEntry(instr.View(), rest);
      StartEntry(rest);
      next := new TraceEntry(line);
      return AfterInstr(line), next, Some(false);
    }
    if line.kind.Trap? {
      EndEntry(instr.View(), rest);
      return Running, null, Some(true);
    }
    AbsorbLine(instr.View(), rest);
    instr.AddCommit(line);
    return Running, instr, None;
  }

  /** What has been yielded, and what is still to come, make up `trace`. */
  ghost predicate Reading(trace: seq<Yield>, out: seq<TraceEntry>, illegal: seq<bool>,
                          state: State, instr: TraceEntry?, rest: seq<Line>)
    requires |out| == |illegal|
    reads out, instr
  {
    trace == Views(out, illegal) + ToCome(state, Held(instr), rest)
  }

  method Append(out: seq<TraceEntry>, illegal: seq<bool>, instr: TraceEntry?, y: Option<bool>)
    returns (newOut: seq<TraceEntry>, newIllegal: seq<bool>)
    requires |out| == |illegal| && (y.Some? ==> instr != null)
    ensures |newOut| == |newIllegal| && newOut == if y.Some? then out + [instr] else out
    ensures Views(newOut, newIllegal) == Views(out, illegal) + Shown(y, instr)
  {
    if y.Some? {
      return out + [instr], illegal + [y.value];
    }
    return out, illegal;
  }

  lemma Regroup(a: seq<Yield>, b: seq<Yield>, c: seq<Yield>, trace: seq<Yield>, ab: seq<Yield>)
    requires trace == a + (b + c) && ab == a + b
    ensures trace == ab + c
  {
  }

  method Round(ghost trace: seq<Yield>, out: seq<TraceEntry>, illegal: seq<bool>,
               state: State, instr: TraceEntry?, line: Line, ghost rest: seq<Line>)
    returns (newOut: seq<TraceEntry>, newIllegal: seq<bool>, after: State, next: TraceEntry?)
    requires |out| == |illegal| && rest != [] && rest[0] == line && state != Stopped
    requires if instr == null then true else state != InTrampoline && instr !in out
    requires Reading(trace, out, illegal, state, instr, rest)
    modifies instr
    ensures |newOut| == |newIllegal| && (after == InTrampoline ==> next == null)
    ensures newOut == out || (instr != null && newOut == out + [instr])
    ensures next == null || fresh(next) || (next == instr && newOut == out)
    ensures Reading(trace, newOut, newIllegal, after, next, rest[1..])
  {
    ghost var before := Views(out, illegal);
    var y;
    after, next, y := ReadLine(state, instr, line, rest);
    ghost var coming := ToCome(after, Held(next), rest[1..]);
    assert Views(out, illegal) == before;
    newOut, newIllegal := Append(out, illegal, instr, y);
    Regroup(before, Shown(y, instr), coming, trace, Views(newOut, newIllegal));
  }

  /** The end of the log, or of what is read of it. */
  method LastOne(ghost trace: seq<Yield>, out: seq<TraceEntry>, illegal: seq<bool>, ghost state: State, instr: TraceEntry?)
    returns (newOut: seq<TraceEntry>, newIllegal: seq<bool>)
    requires |out| == |illegal| && (state == InTrampoline ==> instr == null)
    requires Reading(trace, out, illegal, state, instr, [])
    ensures |newOut| == |newIllegal| && newOut == if instr == null then out else out + [instr]
    ensures Views(newOut, newIllegal) == trace
  {
    newOut, newIllegal := Append(out, illegal, instr, if instr == null then None else Some(false));
  }

  /** `read_spike_trace`: the entries hold in the end what they held when they were
      yielded. */
  method ReadSpikeTrace(lines: seq<Line>) returns (out: seq<TraceEntry>, illegal: seq<bool>)
    ensures |out| == |illegal| && fresh(out)
    ensures Views(out, illegal) == Trace(lines)
  {
    ghost var trace := Trace(lines);
    var state, instr: TraceEntry? := InTrampoline, null;
    out, illegal := [], [];
    assert lines[0..] == lines;
    for i := 0 to |lines|
      invariant |out| == |illegal| && state != Stopped
      invariant state == InTrampoline ==> instr == null
      invariant Reading(trace, out, illegal, state, instr, lines[i..])
      invariant fresh(out) && (instr != null ==> fresh(instr) && instr !in out)
    {
      assert lines[i..][1..] == lines[i + 1..];
      out, illegal, state, instr := Round(trace, out, illegal, state, instr, lines[i], lines[i..]);
      if state == Stopped {
        assert Reading(trace, out, illegal, state, instr, []);
        break;
      }
    }
    out, illegal := LastOne(trace, out, illegal, state, instr);
  }

  // ----- what an entry holds -----------------------------------------------

  function Gprs(s: seq<Line>): seq<string> {
    if s == [] then [] else (if s[0].kind.Commit? then [s[0].kind.gpr] else []) + Gprs(s[1..])
  }

  function Csrs(s: seq<Line>): seq<string> {
    if s == [] then []
    else (if s[0].kind.Commit? && s[0].kind.csr.Some? then [s[0].kind.csr.value] else []) + Csrs(s[1..])
  }

  /** The privilege mode of the last commit. */
  function LastMode(s: seq<Line>): string {
    if s == [] then ""
    else if s[|s| - 1].kind.Commit? then s[|s| - 1].kind.mode
    else LastMode(s[..|s| - 1])
  }

  lemma {:induction false} GprsGrow(s: seq<Line>, line: Line)
    ensures Gprs(s + [line]) == Gprs(s) + (if line.kind.Commit? then [line.kind.gpr] else [])
    ensures Csrs(s + [line]) == Csrs(s) + (if line.kind.Commit? && line.kind.csr.Some? then [line.kind.csr.value] else [])
  {
    if s != [] {
      assert (s + [line])[1..] == s[1..] + [line];
      GprsGrow(s[1..], line);
    } else {
      assert (s + [line])[1..] == [];
    }
  }

  lemma {:induction false} AddAllGrow(e: EntryV, s: seq<Line>, line: Line)
    ensures AddAll(e, s + [line]) == AddLine(AddAll(e, s), line)
    decreases |s|
  {
    if s != [] {
      assert (s + [line])[1..] == s[1..] + [line];
      AddAllGrow(AddLine(e, s[0]), s[1..], line);
    } else {
      assert (s + [line])[1..] == [];
    }
  }

  lemma {:induction false} AddAllCollects(line: Line, s: seq<Line>)
    requires line.kind.Core?
    ensures var e := AddAll(Begin(line), s);
            && e.pc == line.kind.pc && e.disasm == line.kind.disasm && e.binary == line.kind.binary
            && e.gpr == Gprs(s) && e.csr == Csrs(s) && e.mode == LastMode(s)
  {
    if s != [] {
      var n := |s| - 1;
      AddAllCollects(line, s[..n]);
      assert s == s[..n] + [s[n]];
      AddAllGrow(Begin(line), s[..n], s[n]);
      GprsGrow(s[..n], s[n]);
    }
  }

  /** The number of instruction lines among the first `k`. */
  function CoresBefore(s: seq<Line>, k: nat): nat
    requires k <= |s|
  {
    if k == 0 then 0 else CoresBefore(s, k - 1) + if s[k - 1].kind.Core? then 1 else 0
  }

  predicate NoEcall(s: seq<Line>, k: nat)
    requires k <= |s|
  {
    forall m :: 0 <= m < k ==> !IsEcall(s[m])
  }

  lemma {:induction false} CoresBeforeTail(s: seq<Line>, k: nat)
    requires 0 < k <= |s|
    ensures CoresBefore(s, k) == (if s[0].kind.Core? then 1 else 0) + CoresBefore(s[1..], k - 1)
  {
    if k > 1 {
      CoresBeforeTail(s, k - 1);
    }
  }

  /** The entry of the instruction in line `k` is where the instructions before it
      put it. */
  lemma {:induction false} EntryOfLine(s: seq<Line>, k: nat)
    requires k < |s| && s[k].kind.Core? && NoEcall(s, k)
    ensures CoresBefore(s, k) < |Entries(s)|
    ensures Entries(s)[CoresBefore(s, k)]
         == if IsEcall(s[k]) then Yield(Begin(s[k]), false) else Complete(Begin(s[k]), s[k + 1..])
  {
    if k > 0 {
      assert !IsEcall(s[0]);
      assert s[1..][k - 1] == s[k] && s[1..][k..] == s[k + 1..];
      forall m | 0 <= m < k - 1
        ensures !IsEcall(s[1..][m])
      {
        assert !IsEcall(s[m + 1]);
      }
      EntryOfLine(s[1..], k - 1);
      CoresBeforeTail(s, k);
    }
  }

  /** No entry but those. */
  lemma {:induction false} AsManyAsInstructions(s: seq<Line>, k: nat)
    requires k <= |s| && NoEcall(s, k) && (k == |s| || IsEcall(s[k]))
    ensures |Entries(s)| == CoresBefore(s, k) + if k < |s| then 1 else 0
  {
    if k > 0 {
      assert !IsEcall(s[0]);
      assert k < |s| ==> s[1..][k - 1] == s[k];
      forall m | 0 <= m < k - 1
        ensures !IsEcall(s[1..][m])
      {
        assert !IsEcall(s[m + 1]);
      }
      AsManyAsInstructions(s[1..], k - 1);
      CoresBeforeTail(s, k);
    }
  }

  /** Line `t` is a trap, and belongs to the instruction in line `k`. */
  predicate TrapOf(s: seq<Line>, k: nat, t: nat) {
    k < t < |s| && s[t].kind.Trap? && forall m :: k < m < t ==> !s[m].kind.Core?
  }

  /** The segment ends in a trap iff one comes before the next instruction. */
  lemma SegmentEndsInTrap(s: seq<Line>, k: nat, e: EntryV)
    requires k < |s|
    ensures Complete(e, s[k + 1..]).illegal <==> exists t :: TrapOf(s, k, t)
  {
    var rest := s[k + 1..];
    var n := Stop(rest);
    forall t | TrapOf(s, k, t)
      ensures n < |rest| && rest[n].kind.Trap?
    {
      TrapEndsSegment(s, k, t);
    }
    if n < |rest| && rest[n].kind.Trap? {
      forall m | k < m < k + 1 + n
        ensures !s[m].kind.Core?
      {
        StopIsFirst(rest, m - k - 1);
      }
      assert TrapOf(s, k, k + 1 + n);
    }
  }

  lemma TrapEndsSegment(s: seq<Line>, k: nat, t: nat)
    requires TrapOf(s, k, t)
    ensures Stop(s[k + 1..]) < |s| - k - 1 && s[k + 1..][Stop(s[k + 1..])].kind.Trap?
  {
    var rest := s[k + 1..];
    assert rest[t - k - 1] == s[t] && IsStop(rest[t - k - 1]);
    if t - k - 1 < Stop(rest) {
      StopIsFirst(rest, t - k - 1);
    }
    assert s[k + 1 + Stop(rest)] == rest[Stop(rest)];
  }

  /** The lines that belong to the instruction in line `k`. */
  function Effects(s: seq<Line>, k: nat): seq<Line>
    requires k < |s|
  {
    s[k + 1..][..Stop(s[k + 1..])]
  }

  /** The promise for one instruction: its own commits up to the first trap, and the
      flag iff there is a trap before the next instruction. */
  lemma EntryHoldsItsSegment(s: seq<Line>, k: nat)
    requires k < |s| && s[k].kind.Core? && NoEcall(s, k + 1)
    ensures CoresBefore(s, k) < |Entries(s)|
    ensures var y := Entries(s)[CoresBefore(s, k)];
            && y.entry.pc == s[k].kind.pc && y.entry.disasm == s[k].kind.disasm && y.entry.binary == s[k].kind.binary
            && y.entry.gpr == Gprs(Effects(s, k)) && y.entry.csr == Csrs(Effects(s, k))
            && y.entry.mode == LastMode(Effects(s, k))
            && (y.illegal <==> exists t :: TrapOf(s, k, t))
  {
    EntryOfLine(s, k);
    assert !IsEcall(s[k]);
    AddAllCollects(s[k], Effects(s, k));
    SegmentEndsInTrap(s, k, Begin(s[k]));
  }

  /** What follows an ecall is not read. */
  lemma {:induction false} NothingAfterEcall(s: seq<Line>, ecall: Line, rest: seq<Line>)
    requires IsEcall(ecall)
    ensures Entries(s + [ecall] + rest) == Entries(s + [ecall])
  {
    var long, short := s + [ecall] + rest, s + [ecall];
    if s == [] {
      assert long[0] == ecall && short[0] == ecall;
    } else {
      assert long[0] == s[0] && short[0] == s[0];
      assert long[1..] == s[1..] + [ecall] + rest && short[1..] == s[1..] + [ecall];
      NothingAfterEcall(s[1..], ecall, rest);
      StopIsEarly(s[1..], ecall, rest);
      assert long[1..][..Stop(long[1..])] == short[1..][..Stop(short[1..])];
    }
  }

  lemma {:induction false} StopIsEarly(s: seq<Line>, ecall: Line, rest: seq<Line>)
    requires IsEcall(ecall)
    ensures Stop(s + [ecall] + rest) == Stop(s + [ecall]) <= |s|
  {
    var long, short := s + [ecall] + rest, s + [ecall];
    if s == [] {
      assert long[0] == ecall && short[0] == ecall;
    } else {
      assert long[0] == s[0] && short[0] == s[0];
      assert long[1..] == s[1..] + [ecall] + rest && short[1..] == s[1..] + [ecall];
      StopIsEarly(s[1..], ecall, rest);
    }
  }

  /** The trampoline is skipped with everything in it; without its end, so is the log. */
  lemma {:induction false} TrampolineIsSkipped(s: seq<Line>, rest: seq<Line>)
    requires forall k :: 0 <= k < |s| ==> !s[k].endsTrampoline
    ensures Trace(s) == []
    ensures rest != [] && rest[0].endsTrampoline ==> Trace(s + rest) == Entries(rest[1..])
  {
    if s == [] {
      assert s + rest == rest;
    } else {
      assert (s + rest)[1..] == s[1..] + rest;
      TrampolineIsSkipped(s[1..], rest);
    }
  }

  // ----- what is written ---------------------------------------------------

  predicate IsWritten(fullTrace: bool, e: EntryV) {
    fullTrace || e.gpr != [] || e.disasm == "wfi" || e.disasm == "ecall"
  }

  function Written(fullTrace: bool, ys: seq<Yield>): seq<EntryV> {
    if ys == [] then []
    else Written(fullTrace, ys[..|ys| - 1]) +
         if IsWritten(fullTrace, ys[|ys| - 1].entry) then [ys[|ys| - 1].entry] else []
  }

  /** `process_spike_sim_log`: the entries written to the CSV file, and how many. */
  method ProcessSpikeSimLog(lines: seq<Line>, fullTrace: bool)
    returns (traceCsv: seq<TraceEntry>, instrsOut: nat)
    ensures EntryViews(traceCsv) == Written(fullTrace, Trace(lines))
    ensures instrsOut == |Written(fullTrace, Trace(lines))|
  {
    var ys, illegal := ReadSpikeTrace(lines);
    traceCsv, instrsOut := [], 0;
    for i := 0 to |ys|
      invariant EntryViews(traceCsv) == Written(fullTrace, Trace(lines)[..i])
      invariant instrsOut == |traceCsv|
    {
      var entry := ys[i];
      assert Trace(lines)[..i + 1][..i] == Trace(lines)[..i] && Trace(lines)[i].entry == entry.View();
      if !(fullTrace || entry.gpr != [] || entry.disasm in ["wfi", "ecall"]) {
        continue;
      }
      traceCsv := traceCsv + [entry];
      instrsOut := instrsOut + 1;
    }
    assert Trace(lines)[..|ys|] == Trace(lines);
  }

  ghost function EntryViews(s: seq<TraceEntry>): (r: seq<EntryV>)
    reads s
    ensures |r| == |s|
  {
    seq(|s|, i requires 0 <= i < |s| reads s => s[i].View())
  }

  function YieldedGprs(ys: seq<Yield>): seq<string> {
    if ys == [] then [] else YieldedGprs(ys[..|ys| - 1]) + ys[|ys| - 1].entry.gpr
  }

  function WrittenGprs(es: seq<EntryV>): seq<string> {
    if es == [] then [] else WrittenGprs(es[..|es| - 1]) + es[|es| - 1].gpr
  }

  /** The filter drops entries, but no register write. */
  lemma {:induction false} FilterKeepsCommits(fullTrace: bool, ys: seq<Yield>)
    ensures WrittenGprs(Written(fullTrace, ys)) == YieldedGprs(ys)
  {
    if ys != [] {
      var before := Written(fullTrace, ys[..|ys| - 1]);
      var e := ys[|ys| - 1].entry;
      FilterKeepsCommits(fullTrace, ys[..|ys| - 1]);
      assert (before + [e])[..|before|] == before;
      assert before + [] == before;
    }
  }

  /** Which entries pass: in a full trace all; otherwise those with a register write, and
      of the others just wfi and ecall. */
  lemma {:induction false} WrittenIff(fullTrace: bool, ys: seq<Yield>, e: EntryV)
    ensures e in Written(fullTrace, ys) <==>
            && (exists i :: 0 <= i < |ys| && ys[i].entry == e)
            && (fullTrace || e.gpr != [] || e.disasm == "wfi" || e.disasm == "ecall")
  {
    if ys != [] {
      var n := |ys| - 1;
      WrittenIff(fullTrace, ys[..n], e);
      assert (exists i :: 0 <= i < n && ys[..n][i].entry == e) <==> (exists i :: 0 <= i < n && ys[i].entry == e);
    }
  }

  ghost function Passing(fullTrace: bool, ys: seq<Yield>): set<nat> {
    set i: nat | i < |ys| && (fullTrace || ys[i].entry.gpr != [] || ys[i].entry.disasm == "wfi" || ys[i].entry.disasm == "ecall")
  }

  /** Each of them once, and in order. */
  lemma {:induction false} WrittenInOrder(fullTrace: bool, ys: seq<Yield>)
    ensures |Written(fullTrace, ys)| == |Passing(fullTrace, ys)|
    ensures forall i, j :: 0 <= i < j < |ys| && i in Passing(fullTrace, ys) && j in Passing(fullTrace, ys) ==>
              var a, b := |Passing(fullTrace, ys[..i])|, |Passing(fullTrace, ys[..j])|;
              a < b < |Written(fullTrace, ys)| && Written(fullTrace, ys)[a] == ys[i].entry && Written(fullTrace, ys)[b] == ys[j].entry
  {
    forall i | 0 <= i < |ys| && i in Passing(fullTrace, ys)
      ensures |Passing(fullTrace, ys[..i])| < |Written(fullTrace, ys)|
      ensures Written(fullTrace, ys)[|Passing(fullTrace, ys[..i])|] == ys[i].entry
    {
      WrittenAt(fullTrace, ys, i);
    }
    forall i, j | 0 <= i < j < |ys| && i in Passing(fullTrace, ys)
      ensures |Passing(fullTrace, ys[..i])| < |Passing(fullTrace, ys[..j])|
    {
      PassingGrows(fullTrace, ys, i, j);
    }
    PassingCounts(fullTrace, ys);
  }

  lemma {:induction false} PassingCounts(fullTrace: bool, ys: seq<Yield>)
    ensures |Written(fullTrace, ys)| == |Passing(fullTrace, ys)|
  {
    if ys == [] {
      assert Passing(fullTrace, ys) == {};
    } else {
      var n := |ys| - 1;
      PassingCounts(fullTrace, ys[..n]);
      assert Passing(fullTrace, ys) == Passing(fullTrace, ys[..n]) + if IsWritten(fullTrace, ys[n].entry) then {n} else {};
    }
  }

  lemma {:induction false} WrittenAt(fullTrace: bool, ys: seq<Yield>, i: nat)
    requires i < |ys| && i in Passing(fullTrace, ys)
    ensures |Passing(fullTrace, ys[..i])| < |Written(fullTrace, ys)|
    ensures Written(fullTrace, ys)[|Passing(fullTrace, ys[..i])|] == ys[i].entry
  {
    var n := |ys| - 1;
    PassingCounts(fullTrace, ys[..i]);
    if i < n {
      assert ys[..n][..i] == ys[..i];
      WrittenAt(fullTrace, ys[..n], i);
    }
  }

  lemma {:induction false} PassingGrows(fullTrace: bool, ys: seq<Yield>, i: nat, j: nat)
    requires i < j <= |ys| && i in Passing(fullTrace, ys)
    ensures |Passing(fullTrace, ys[..i])| < |Passing(fullTrace, ys[..j])|
  {
    var a, b := Passing(fullTrace, ys[..i]), Passing(fullTrace, ys[..j]);
    assert a + {i} <= b;
    Collections.Subset(a + {i}, b);
  }

  /** The ecall that ends the run is the last entry of the file. */
  lemma {:induction false} EcallIsWrittenLast(fullTrace: bool, s: seq<Line>, k: nat)
    requires k < |s| && IsEcall(s[k]) && NoEcall(s, k)
    ensures Written(fullTrace, Entries(s)) != []
    ensures Written(fullTrace, Entries(s))[|Written(fullTrace, Entries(s))| - 1]
         == EntryV(s[k].kind.pc, "ecall", s[k].kind.binary, [], [], "")
  {
    EntryOfLine(s, k);
    AsManyAsInstructions(s, k);
    var ys := Entries(s);
    assert ys[|ys| - 1] == Yield(Begin(s[k]), false);
  }
}
