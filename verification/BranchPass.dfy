/** Branch targets of a random program.

One pass splices the directed streams in, numbers the labels, gives every
pending branch a forward operand and drops the labels nobody uses, the last two
in the same loop. The module proves that each operand names a label which is
strictly later, not inside an atomic block, and not dropped; and it says exactly
when an operand is captured by a numeric label inside a spliced stream. Runs of
the finished program are the subject of BranchRuns. */
module BranchPass {
  import opened Collections
  import opened InstrStream
  import opened JumpChain
  import opened Wrappers

  /** What no pass changes in an instruction. */
  datatype Kind = Kind(branch: bool, jump: Option<Operand>, compressed: bool, insertIllegal: bool)

  /** A snapshot of an instruction object. */
  datatype InstrV = InstrV(kind: Kind, atomic: bool, hasLabel: bool, tag: Label, numeric: bool,
                           idx: int, branchAssigned: bool, illegal: bool, hint: bool, target: Option<int>)

  function KindOf(x: Instr): Kind {
    Kind(x.op.Branch?, if x.op.Jump? then Some(x.op.operand) else None, x.compressed, x.insertIllegal)
  }

  ghost function View(x: Instr): InstrV
    reads x
  {
    InstrV(KindOf(x), x.atomic, x.hasLabel, x.tag, x.numeric, x.idx, x.branchAssigned, x.illegal, x.hint, x.target)
  }

  ghost predicate Shows(list: seq<Instr>, vs: seq<InstrV>)
    reads list
  {
    |list| == |vs| && forall i {:trigger list[i]} :: 0 <= i < |vs| ==> View(list[i]) == vs[i]
  }

  ghost function Views(list: seq<Instr>): (vs: seq<InstrV>)
    reads list
    ensures Shows(list, vs)
  {
    seq(|list|, i requires 0 <= i < |list| reads list => View(list[i]))
  }

  // ----- what the pass computes --------------------------------------------

  /** The configured rates and the draws of the numbering loop. */
  datatype Injection = Injection(illegalPct: nat, hintPct: nat, illegalRoll: nat -> nat, hintRoll: nat -> nat)

  /** A labelled instruction may be made illegal, if the next one starts where the trap
      handler resumes, or a hint. */
  function Injected(vs: seq<InstrV>, i: nat, inj: Injection): InstrV
    requires i < |vs|
  {
    var v := vs[i];
    var resumes := v.kind.compressed ==> i < |vs| - 1 && vs[i + 1].kind.compressed;
    var v' := if Labelled(v) && inj.illegalPct > 0 && !v.kind.insertIllegal && resumes then v.(illegal := inj.illegalRoll(i) != 0)
              else v;
    if Labelled(v) && inj.hintPct > 0 && !v'.illegal && v.kind.compressed then v'.(hint := inj.hintRoll(i) != 0) else v'
  }

  predicate AreInjected(ds: seq<InstrV>, vs: seq<InstrV>, inj: Injection) {
    |ds| == |vs| && forall i {:trigger ds[i]} :: 0 <= i < |vs| ==> ds[i] == Injected(vs, i, inj)
  }

  function AllInjected(vs: seq<InstrV>, inj: Injection): (ds: seq<InstrV>)
    ensures AreInjected(ds, vs, inj)
  {
    seq(|vs|, i requires 0 <= i < |vs| => Injected(vs, i, inj))
  }

  predicate Labelled(v: InstrV) {
    v.hasLabel && !v.atomic
  }

  predicate Pending(v: InstrV) {
    v.kind.branch && !v.branchAssigned && !v.illegal
  }

  /** The number of labelled instructions before `i`. */
  function Rank(vs: seq<InstrV>, i: nat): nat
    requires i <= |vs|
  {
    if i == 0 then 0 else Rank(vs, i - 1) + if Labelled(vs[i - 1]) then 1 else 0
  }

  /** The number of pending branches before `i`. */
  function Turn(vs: seq<InstrV>, i: nat): nat
    requires i <= |vs|
  {
    if i == 0 then 0 else Turn(vs, i - 1) + if Pending(vs[i - 1]) then 1 else 0
  }

  function Target(vs: seq<InstrV>, j: nat, steps: nat -> nat): int
    requires j < |vs|
  {
    var wanted := Rank(vs, j) + steps(Turn(vs, j));
    if wanted >= Rank(vs, |vs|) then Rank(vs, |vs|) - 1 else wanted
  }

  /** Some branch before `n` jumps to label `t`. */
  ghost predicate Targeted(vs: seq<InstrV>, n: nat, t: int, steps: nat -> nat)
    requires n <= |vs|
  {
    exists j :: 0 <= j < n && Pending(vs[j]) && Target(vs, j, steps) == t
  }

  function Numbered(vs: seq<InstrV>, j: nat): InstrV
    requires j < |vs|
  {
    NumberedAs(vs[j], Rank(vs, j))
  }

  function NumberedAs(v: InstrV, k: nat): InstrV {
    if Labelled(v) then v.(idx := k, tag := Digit(k), numeric := true) else v.(idx := k)
  }

  ghost function Processed(vs: seq<InstrV>, j: nat, steps: nat -> nat): InstrV
    requires j < |vs|
  {
    var v := Numbered(vs, j);
    var v' := if Pending(v) then v.(target := Some(Target(vs, j, steps)), branchAssigned := true) else v;
    if Labelled(v) && !Targeted(vs, j + 1, Rank(vs, j), steps) then v'.(hasLabel := false) else v'
  }

  ghost function After(vs: seq<InstrV>, steps: nat -> nat): (r: seq<InstrV>)
    ensures |r| == |vs|
  {
    seq(|vs|, j requires 0 <= j < |vs| => Processed(vs, j, steps))
  }

  /** The r-th arrangement of the thirty branch steps. */
  type Shuffle = (nat, seq<nat>) -> seq<nat>

  ghost predicate Permutes(shuffle: Shuffle) {
    forall r: nat, s: seq<nat> :: multiset(shuffle(r, s)) == multiset(s)
  }

  function Round(first: seq<nat>, shuffle: Shuffle, r: nat): seq<nat> {
    if r == 0 then first else shuffle(r, Round(first, shuffle, r - 1))
  }

  lemma {:induction false} RoundsPermute(first: seq<nat>, shuffle: Shuffle, r: nat)
    requires Permutes(shuffle)
    ensures multiset(Round(first, shuffle, r)) == multiset(first)
    ensures |Round(first, shuffle, r)| == |first|
    ensures forall x :: x in Round(first, shuffle, r) ==> x in first
  {
    if r > 0 {
      RoundsPermute(first, shuffle, r - 1);
    }
    assert |multiset(first)| == |first|;
    assert |multiset(Round(first, shuffle, r))| == |Round(first, shuffle, r)|;
    forall x | x in Round(first, shuffle, r)
      ensures x in first
    {
      assert x in multiset(Round(first, shuffle, r));
    }
  }

  /** The step of the b-th branch: thirty draws, reshuffled after each use. */
  ghost function StepsOf(first: seq<nat>, shuffle: Shuffle): nat -> nat {
    (b: nat) => var round := Round(first, shuffle, b / 30);
                if b % 30 < |round| then round[b % 30] else 1
  }

  lemma StepsInRange(first: seq<nat>, shuffle: Shuffle, maxBranchStep: nat, b: nat)
    requires Permutes(shuffle) && |first| == 30 && forall x :: x in first ==> 1 <= x <= maxBranchStep
    ensures 1 <= StepsOf(first, shuffle)(b) <= maxBranchStep
  {
    var round := Round(first, shuffle, b / 30);
    RoundsPermute(first, shuffle, b / 30);
    assert round[b % 30] in round;
  }

  ghost predicate Positive(steps: nat -> nat) {
    forall b: nat :: steps(b) >= 1
  }

  lemma StepsArePositive(first: seq<nat>, shuffle: Shuffle, maxBranchStep: nat)
    requires Permutes(shuffle) && |first| == 30 && forall x :: x in first ==> 1 <= x <= maxBranchStep
    ensures Positive(StepsOf(first, shuffle))
  {
    forall b: nat
      ensures StepsOf(first, shuffle)(b) >= 1
    {
      StepsInRange(first, shuffle, maxBranchStep, b);
    }
  }

  // ----- the pass on the objects -------------------------------------------

  method NumberLabels(list: seq<Instr>, inj: Injection, ghost vs: seq<InstrV>, ghost ds: seq<InstrV>) returns (labelIdx: nat)
    requires NoDup(list) && Shows(list, vs) && AreInjected(ds, vs, inj)
    modifies list
    ensures labelIdx == Rank(ds, |ds|) && Shows(list, AllNumbered(ds))
    ensures TrapsResume(vs, list)
  {
    labelIdx := 0;
    ghost var now := vs;
    for i := 0 to |list|
      invariant labelIdx == Rank(ds, i) && Shows(list, now)
      invariant PartlyNumbered(now, vs, ds, i)
    {
      labelIdx, now := NumberNext(list, i, labelIdx, inj, vs, ds, now);
    }
    AllAreNumbered(now, vs, ds);
    assert ds == AllInjected(vs, inj);
    TrapsDoResume(list, now, vs, inj);
  }

  lemma AllAreNumbered(now: seq<InstrV>, vs: seq<InstrV>, ds: seq<InstrV>)
    requires PartlyNumbered(now, vs, ds, |vs|)
    ensures now == AllNumbered(ds)
  {
  }

  /** One turn of the numbering loop. */
  method NumberNext(list: seq<Instr>, i: nat, labelIdx: nat, inj: Injection,
                    ghost vs: seq<InstrV>, ghost ds: seq<InstrV>, ghost now: seq<InstrV>)
    returns (next: nat, ghost later: seq<InstrV>)
    requires NoDup(list) && Shows(list, now) && i < |list|
    requires PartlyNumbered(now, vs, ds, i) && AreInjected(ds, vs, inj) && labelIdx == Rank(ds, i)
    modifies list
    ensures Shows(list, later) && PartlyNumbered(later, vs, ds, i + 1)
    ensures next == Rank(ds, i + 1)
  {
    NumberStep(now, vs, ds, inj, i);
    Inject(list, i, inj, now);
    next := NumberOne(list, i, labelIdx, now[i := ds[i]]);
    later := now[i := Numbered(ds, i)];
    assert now[i := ds[i]][i := Numbered(ds, i)] == later;
  }

  ghost function AllNumbered(vs: seq<InstrV>): (r: seq<InstrV>)
    ensures |r| == |vs|
  {
    seq(|vs|, k requires 0 <= k < |vs| => Numbered(vs, k))
  }

  ghost predicate PartlyNumbered(now: seq<InstrV>, vs: seq<InstrV>, ds: seq<InstrV>, i: nat) {
    && |now| == |vs| == |ds|
    && (forall k {:trigger now[k]} :: 0 <= k < i && k < |vs| ==> now[k] == Numbered(ds, k))
    && (forall k {:trigger now[k]} :: i <= k < |vs| ==> now[k] == vs[k])
  }

  lemma NumberStep(now: seq<InstrV>, vs: seq<InstrV>, ds: seq<InstrV>, inj: Injection, i: nat)
    requires PartlyNumbered(now, vs, ds, i) && i < |vs|
    ensures Injected(now, i, inj) == Injected(vs, i, inj)
    ensures PartlyNumbered(now[i := Numbered(ds, i)], vs, ds, i + 1)
  {
  }

  /** The draws for one instruction. */
  method Inject(list: seq<Instr>, i: nat, inj: Injection, ghost now: seq<InstrV>)
    requires NoDup(list) && Shows(list, now) && i < |list|
    modifies list[i]
    ensures Shows(list, now[i := Injected(now, i, inj)])
  {
    var x := list[i];
    if x.hasLabel && !x.atomic {
      if inj.illegalPct > 0 && !x.insertIllegal {
        if x.compressed {
          if i < |list| - 1 {
            if list[i + 1].compressed {
              x.illegal := inj.illegalRoll(i) != 0;
            }
          }
        } else {
          x.illegal := inj.illegalRoll(i) != 0;
        }
      }
      if inj.hintPct > 0 && !x.illegal {
        if x.compressed {
          x.hint := inj.hintRoll(i) != 0;
        }
      }
    }
  }

  method NumberOne(list: seq<Instr>, i: nat, labelIdx: nat, ghost now: seq<InstrV>) returns (next: nat)
    requires NoDup(list) && Shows(list, now) && i < |list|
    modifies list[i]
    ensures Shows(list, now[i := NumberedAs(now[i], labelIdx)])
    ensures next == labelIdx + if Labelled(now[i]) then 1 else 0
  {
    var x := list[i];
    x.idx := labelIdx;
    next := labelIdx;
    if x.hasLabel && !x.atomic {
      x.tag := Digit(labelIdx);
      x.numeric := true;
      next := labelIdx + 1;
    }
  }

  method AssignBranches(list: seq<Instr>, labelIdx: nat, first: seq<nat>, shuffle: Shuffle, ghost vs: seq<InstrV>)
    requires NoDup(list) && Shows(list, AllNumbered(vs)) && forall v :: v in vs ==> !v.numeric
    requires labelIdx == Rank(vs, |vs|)
    requires |first| == 30 && Permutes(shuffle)
    modifies list
    ensures Shows(list, After(vs, StepsOf(first, shuffle)))
  {
    ghost var steps := StepsOf(first, shuffle);
    var branchIdx, branchCnt, round := first, 0, 0;
    var branchTarget: set<int> := {};
    ghost var now := AllNumbered(vs);
    var j := 0;
    while j < |list|
      invariant 0 <= j <= |list| && Shows(list, now)
      invariant AtStep(branchIdx, branchCnt, round, first, shuffle, Turn(vs, j))
      invariant TargetsAre(branchTarget, vs, j, steps)
      invariant PartlyProcessed(now, vs, j, steps)
    {
      var operand: Option<int>;
      operand, branchTarget, branchIdx, branchCnt, round :=
        AskFor(list[j], labelIdx, branchTarget, branchIdx, branchCnt, round, first, shuffle, vs, j, now);
      FinishOne(list, j, operand, branchTarget, now);
      now := now[j := Finished(now[j], operand, branchTarget)];
      j := j + 1;
    }
    AllAreProcessed(now, vs, steps);
  }

  lemma AllAreProcessed(now: seq<InstrV>, vs: seq<InstrV>, steps: nat -> nat)
    requires PartlyProcessed(now, vs, |vs|, steps)
    ensures now == After(vs, steps)
  {
  }

  /** The first half of the loop body: the target of a branch, if this is one. */
  method AskFor(x: Instr, labelIdx: nat, branchTarget: set<int>, branchIdx: seq<nat>, branchCnt: nat, round: nat,
                first: seq<nat>, shuffle: Shuffle, ghost vs: seq<InstrV>, ghost j: nat, ghost now: seq<InstrV>)
    returns (operand: Option<int>, branchTarget': set<int>, branchIdx': seq<nat>, branchCnt': nat, round': nat)
    requires j < |vs| && !vs[j].numeric && PartlyProcessed(now, vs, j, StepsOf(first, shuffle)) && View(x) == now[j]
    requires labelIdx == Rank(vs, |vs|) && |first| == 30 && Permutes(shuffle)
    requires AtStep(branchIdx, branchCnt, round, first, shuffle, Turn(vs, j))
    requires TargetsAre(branchTarget, vs, j, StepsOf(first, shuffle))
    ensures AtStep(branchIdx', branchCnt', round', first, shuffle, Turn(vs, j + 1))
    ensures TargetsAre(branchTarget', vs, j + 1, StepsOf(first, shuffle))
    ensures now[j].numeric ==> now[j].tag.Digit?
    ensures PartlyProcessed(now[j := Finished(now[j], operand, branchTarget')], vs, j + 1, StepsOf(first, shuffle))
  {
    operand, branchTarget', branchIdx', branchCnt', round' := None, branchTarget, branchIdx, branchCnt, round;
    if x.op.Branch? && !x.branchAssigned && !x.illegal {
      var t;
      t, branchIdx', branchCnt', round' := PickTarget(x.idx, labelIdx, branchIdx, branchCnt, round, first, shuffle, vs, j);
      operand := Some(t);
      branchTarget' := branchTarget + {t};
    }
    ProcessStep(now, vs, j, StepsOf(first, shuffle), branchTarget, operand, branchTarget');
  }

  /** The label for one branch, and the step list turned by one. */
  method PickTarget(idx: int, labelIdx: nat, branchIdx: seq<nat>, branchCnt: nat, round: nat,
                    first: seq<nat>, shuffle: Shuffle, ghost vs: seq<InstrV>, ghost j: nat)
    returns (branchTargetLabel: int, branchIdx': seq<nat>, branchCnt': nat, round': nat)
    requires j < |vs| && idx == Rank(vs, j) && labelIdx == Rank(vs, |vs|)
    requires |first| == 30 && Permutes(shuffle)
    requires AtStep(branchIdx, branchCnt, round, first, shuffle, Turn(vs, j))
    ensures branchTargetLabel == Target(vs, j, StepsOf(first, shuffle))
    ensures AtStep(branchIdx', branchCnt', round', first, shuffle, Turn(vs, j) + 1)
  {
    TargetFromStep(vs, j, branchIdx, branchCnt, round, first, shuffle);
    branchTargetLabel := idx + branchIdx[branchCnt];
    if branchTargetLabel >= labelIdx {
      branchTargetLabel := labelIdx - 1;
    }
    branchIdx', branchCnt', round' := branchIdx, branchCnt + 1, round;
    if branchCnt' == |branchIdx| {
      branchCnt', branchIdx', round' := 0, shuffle(round + 1, branchIdx), round + 1;
    }
  }

  /** The state of the step list after `turn` branches. */
  ghost predicate AtStep(branchIdx: seq<nat>, branchCnt: nat, round: nat, first: seq<nat>, shuffle: Shuffle, turn: nat) {
    branchIdx == Round(first, shuffle, round) && |branchIdx| == 30 && branchCnt < 30 && 30 * round + branchCnt == turn
  }

  lemma TargetFromStep(vs: seq<InstrV>, j: nat, branchIdx: seq<nat>, branchCnt: nat, round: nat,
                       first: seq<nat>, shuffle: Shuffle)
    requires j < |vs| && |first| == 30 && Permutes(shuffle)
    requires AtStep(branchIdx, branchCnt, round, first, shuffle, Turn(vs, j))
    ensures var wanted := Rank(vs, j) + branchIdx[branchCnt];
            Target(vs, j, StepsOf(first, shuffle)) ==
            if wanted >= Rank(vs, |vs|) then Rank(vs, |vs|) - 1 else wanted
    ensures if branchCnt + 1 < 30 then AtStep(branchIdx, branchCnt + 1, round, first, shuffle, Turn(vs, j) + 1)
            else AtStep(shuffle(round + 1, branchIdx), 0, round + 1, first, shuffle, Turn(vs, j) + 1)
  {
    var b := Turn(vs, j);
    assert b / 30 == round && b % 30 == branchCnt;
    RoundsPermute(first, shuffle, round + 1);
  }

  ghost predicate TargetsAre(branchTarget: set<int>, vs: seq<InstrV>, n: nat, steps: nat -> nat)
    requires n <= |vs|
  {
    forall t :: t in branchTarget <==> Targeted(vs, n, t, steps)
  }

  ghost predicate PartlyProcessed(now: seq<InstrV>, vs: seq<InstrV>, j: nat, steps: nat -> nat) {
    && |now| == |vs|
    && (forall k :: 0 <= k < j && k < |vs| ==> now[k] == Processed(vs, k, steps))
    && (forall k :: j <= k < |vs| ==> now[k] == Numbered(vs, k))
  }

  function Finished(v: InstrV, operand: Option<int>, branchTarget: set<int>): InstrV
    requires v.numeric ==> v.tag.Digit?
  {
    var v' := if operand.Some? then v.(target := operand, branchAssigned := true) else v;
    if v.hasLabel && v.numeric && v.tag.n !in branchTarget then v'.(hasLabel := false) else v'
  }

  lemma ProcessStep(now: seq<InstrV>, vs: seq<InstrV>, j: nat, steps: nat -> nat,
                    before: set<int>, operand: Option<int>, branchTarget: set<int>)
    requires PartlyProcessed(now, vs, j, steps) && j < |vs| && !vs[j].numeric
    requires TargetsAre(before, vs, j, steps)
    requires operand == if Pending(vs[j]) then Some(Target(vs, j, steps)) else None
    requires branchTarget == if operand.Some? then before + {operand.value} else before
    ensures TargetsAre(branchTarget, vs, j + 1, steps)
    ensures PartlyProcessed(now[j := Finished(now[j], operand, branchTarget)], vs, j + 1, steps)
  {
    TargetedStep(vs, j, steps);
    assert Finished(now[j], operand, branchTarget) == Processed(vs, j, steps);
  }

  /** The end of the loop body: the operand is written, and a numeric label that
      no branch has asked for by now is dropped. */
  method FinishOne(list: seq<Instr>, j: nat, operand: Option<int>, branchTarget: set<int>, ghost now: seq<InstrV>)
    requires NoDup(list) && Shows(list, now) && j < |list| && (now[j].numeric ==> now[j].tag.Digit?)
    modifies list[j]
    ensures Shows(list, now[j := Finished(now[j], operand, branchTarget)])
  {
    var x := list[j];
    assert View(x) == now[j];
    if operand.Some? {
      x.target := operand;
      x.branchAssigned := true;
    }
    if x.hasLabel && x.numeric {
      var idx := x.tag.n;
      if idx !in branchTarget {
        x.hasLabel := false;
      }
    }
  }

  lemma TargetedStep(vs: seq<InstrV>, j: nat, steps: nat -> nat)
    requires j < |vs|
    ensures forall t :: Targeted(vs, j + 1, t, steps) <==>
                        Targeted(vs, j, t, steps) || (Pending(vs[j]) && Target(vs, j, steps) == t)
  {
  }

  /** The directed streams go in one after the other, in front of non-atomic
      instructions. */
  method SpliceDirected(stream: Stream, directed: seq<seq<Instr>>, dice: nat -> Dice)
    returns (ok: bool, ghost at: seq<nat>)
    requires stream.instrs != [] && !Last(stream.instrs).atomic
    requires forall s, x :: s in directed && x in s ==> x.atomic && x !in stream.instrs
    requires forall n: nat :: InRange(dice(n))
    modifies stream
    ensures ok && LegalSeries(old(stream.instrs), directed, at, Atomics(old(stream.instrs), directed))
    ensures stream.instrs == InsertAll(old(stream.instrs), directed, at)
  {
    at := [];
    ghost var base, atomics := stream.instrs, Atomics(stream.instrs, directed);
    for n := 0 to |directed|
      invariant |at| == n
      invariant LegalSeries(base, directed[..n], at, atomics)
      invariant stream.instrs == InsertAll(base, directed[..n], at)
    {
      SeriesKeepsLast(base, directed[..n], at, atomics);
      ghost var before := stream.instrs;
      assert Last(base) in before;
      ghost var k;
      ok, k := stream.InsertInstrStream(directed[n], -1, dice(n));
      assert before[k] in before;
      SeriesStep(base, directed, n, at, k, atomics);
      at := at + [k];
    }
    assert directed[..|directed|] == directed;
    ok := true;
  }

  lemma SeriesStep<T>(list: seq<T>, streams: seq<seq<T>>, n: nat, at: seq<nat>, k: nat, atomics: set<T>)
    requires n < |streams| && LegalSeries(list, streams[..n], at, atomics)
    requires k < |InsertAll(list, streams[..n], at)| && InsertAll(list, streams[..n], at)[k] !in atomics
    ensures LegalSeries(list, streams[..n + 1], at + [k], atomics)
    ensures InsertAll(list, streams[..n + 1], at + [k]) == Insert(InsertAll(list, streams[..n], at), k, streams[n])
  {
    assert streams[..n] + [streams[n]] == streams[..n + 1];
    InsertAllStep(list, streams[..n], at, streams[n], k);
    LegalSeriesStep(list, streams[..n], at, streams[n], k, atomics);
  }

  ghost function Elements<T>(streams: seq<seq<T>>): set<T> {
    set s, x | s in streams && x in s :: x
  }

  ghost function Atomics(list: seq<Instr>, directed: seq<seq<Instr>>): set<Instr>
    reads list, set s, x | s in directed && x in s :: x
  {
    (set x | x in list && x.atomic) + (set s, x | s in directed && x in s && x.atomic :: x)
  }

  // ----- every instruction object occurs once ------------------------------

  ghost predicate Apart<T>(a: seq<T>, b: seq<T>) {
    forall x :: x in a ==> x !in b
  }

  ghost predicate AllApart<T>(list: seq<T>, streams: seq<seq<T>>) {
    && NoDup(list)
    && (forall i :: 0 <= i < |streams| ==> NoDup(streams[i]) && Apart(streams[i], list))
    && (forall i, j :: 0 <= i < j < |streams| ==> Apart(streams[j], streams[i]))
  }

  lemma {:induction false} SplicesAreApart<T>(list: seq<T>, streams: seq<seq<T>>, at: seq<nat>)
    requires |at| == |streams| && AllApart(list, streams)
    ensures NoDup(InsertAll(list, streams, at))
    ensures forall x :: x in InsertAll(list, streams, at) ==> x in list || exists i :: 0 <= i < |streams| && x in streams[i]
  {
    if streams != [] {
      var n := |streams| - 1;
      var before := InsertAll(list, streams[..n], at[..n]);
      SplicesAreApart(list, streams[..n], at[..n]);
      forall x | x in before && x !in list
        ensures exists i :: 0 <= i < |streams| && x in streams[i]
      {
        var i :| 0 <= i < n && x in streams[..n][i];
        assert x in streams[i];
      }
      forall x | x in streams[n]
        ensures x !in before
      {
        assert Apart(streams[n], list);
        forall i | 0 <= i < n
          ensures x !in streams[..n][i]
        {
          assert Apart(streams[n], streams[i]);
        }
      }
      if at[n] <= |before| {
        InsertIsApart(before, at[n], streams[n]);
      }
    }
  }

  lemma InsertIsApart<T>(list: seq<T>, k: nat, new_: seq<T>)
    requires k <= |list| && NoDup(list) && NoDup(new_) && Apart(list, new_)
    ensures NoDup(Insert(list, k, new_))
  {
    var r := Insert(list, k, new_);
    forall i, j | 0 <= i < j < |r|
      ensures r[i] != r[j]
    {
      assert i < k ==> r[i] == list[i] && r[i] in list;
      assert k <= i < k + |new_| ==> r[i] == new_[i - k] && r[i] in new_;
      assert i >= k + |new_| ==> r[i] == list[i - |new_|] && r[i] in list;
      assert j < k ==> r[j] == list[j] && r[j] in list;
      assert k <= j < k + |new_| ==> r[j] == new_[j - k] && r[j] in new_;
      assert j >= k + |new_| ==> r[j] == list[j - |new_|] && r[j] in list;
    }
  }

  // ----- field by field ----------------------------------------------------

  /** What the draws may change, and where. */
  lemma DrawsAreSafe(vs: seq<InstrV>, inj: Injection, i: nat)
    requires i < |vs|
    ensures var v, d := vs[i], AllInjected(vs, inj)[i];
            && d == v.(illegal := d.illegal, hint := d.hint)
            && (d.illegal != v.illegal ==> inj.illegalPct > 0 && v.hasLabel && !v.atomic && !v.kind.insertIllegal)
            && (d.illegal != v.illegal && v.kind.compressed ==> i + 1 < |vs| && vs[i + 1].kind.compressed)
            && (d.hint != v.hint ==> inj.hintPct > 0 && v.hasLabel && !v.atomic && v.kind.compressed && !d.illegal)
  {
    assert AllInjected(vs, inj)[i] == Injected(vs, i, inj);
  }

  /** Where nothing forbids it, the draw decides. */
  lemma DrawsAreTaken(vs: seq<InstrV>, inj: Injection, i: nat)
    requires i < |vs| && vs[i].hasLabel && !vs[i].atomic
    ensures var v, d := vs[i], AllInjected(vs, inj)[i];
            && (inj.illegalPct > 0 && !v.kind.insertIllegal
                && (v.kind.compressed ==> i + 1 < |vs| && vs[i + 1].kind.compressed)
                ==> d.illegal == (inj.illegalRoll(i) != 0))
            && (inj.hintPct > 0 && v.kind.compressed && !d.illegal ==> d.hint == (inj.hintRoll(i) != 0))
  {
    assert AllInjected(vs, inj)[i] == Injected(vs, i, inj);
  }

  /** Behind every compressed instruction that was made illegal stands another one, so
      that the trap handler's PC + 4 is an instruction boundary. */
  ghost predicate TrapsResume(vs: seq<InstrV>, list: seq<Instr>)
    reads list
  {
    && |list| == |vs|
    && forall i {:trigger list[i]} :: 0 <= i < |vs| && list[i].illegal && !vs[i].illegal && list[i].compressed ==>
         i + 1 < |vs| && list[i + 1].compressed
  }

  lemma TrapsDoResume(list: seq<Instr>, a: seq<InstrV>, vs: seq<InstrV>, inj: Injection)
    requires Shows(list, a) && |a| == |vs|
    requires forall i {:trigger a[i]} :: 0 <= i < |vs| ==>
               a[i].illegal == AllInjected(vs, inj)[i].illegal && a[i].kind == vs[i].kind
    ensures TrapsResume(vs, list)
  {
    forall i | 0 <= i < |vs| && list[i].illegal && !vs[i].illegal && list[i].compressed
      ensures i + 1 < |vs| && list[i + 1].compressed
    {
      DrawsAreSafe(vs, inj, i);
      assert View(list[i]) == a[i];
      assert View(list[i + 1]) == a[i + 1];
    }
  }

  /** Every instruction knows how many labels stand before it. */
  lemma LabelsCount(ds: seq<InstrV>, steps: nat -> nat, j: nat)
    requires j < |ds|
    ensures var a := After(ds, steps);
            && a[0].idx == 0
            && (j > 0 ==> a[j].idx == a[j - 1].idx + if ds[j - 1].hasLabel && !ds[j - 1].atomic then 1 else 0)
  {
    var a := After(ds, steps);
    assert a[0] == Processed(ds, 0, steps) && a[j] == Processed(ds, j, steps);
    if j > 0 {
      assert a[j - 1] == Processed(ds, j - 1, steps);
    }
  }

  /** Those that carry one are named by that number, and nothing else changes but operands
      and unused labels. */
  lemma LabelsAreNumbers(ds: seq<InstrV>, steps: nat -> nat, j: nat)
    requires j < |ds|
    ensures var a := After(ds, steps)[j];
            && a == ds[j].(idx := a.idx, tag := a.tag, numeric := a.numeric, hasLabel := a.hasLabel,
                           target := a.target, branchAssigned := a.branchAssigned)
            && if ds[j].hasLabel && !ds[j].atomic then a.tag == Digit(a.idx) && a.numeric
               else a.tag == ds[j].tag && a.numeric == ds[j].numeric && a.hasLabel == ds[j].hasLabel
  {
    assert After(ds, steps)[j] == Processed(ds, j, steps);
  }

  /** The branches before `j` that want a target. */
  ghost function Wanting(ds: seq<InstrV>, j: nat): set<nat> {
    set k: nat | k < j && k < |ds| && ds[k].kind.branch && !ds[k].branchAssigned && !ds[k].illegal
  }

  lemma {:induction false} TurnCounts(ds: seq<InstrV>, j: nat)
    requires j <= |ds|
    ensures Turn(ds, j) == |Wanting(ds, j)|
  {
    if j == 0 {
      assert Wanting(ds, j) == {};
    } else {
      TurnCounts(ds, j - 1);
      assert Wanting(ds, j) == Wanting(ds, j - 1) + if Pending(ds[j - 1]) then {j - 1} else {};
    }
  }

  /** Exactly the branches that are legal and have no operand yet are given one: the n-th
      of them goes the n-th step ahead, counted in labels, or to the last label. */
  lemma BranchesStepAhead(ds: seq<InstrV>, steps: nat -> nat, j: nat)
    requires j < |ds| && Last(ds).hasLabel && !Last(ds).atomic
    ensures var a := After(ds, steps);
            if ds[j].kind.branch && !ds[j].branchAssigned && !ds[j].illegal then
              var ahead := a[j].idx + steps(|Wanting(ds, j)|);
              a[j].branchAssigned && a[j].target == Some(if ahead <= Last(a).idx then ahead else Last(a).idx)
            else
              a[j].branchAssigned == ds[j].branchAssigned && a[j].target == ds[j].target
  {
    TurnCounts(ds, j);
    var a, n := After(ds, steps), |ds| - 1;
    assert a[j] == Processed(ds, j, steps) && a[n] == Processed(ds, n, steps);
    assert Rank(ds, n + 1) == Rank(ds, n) + 1;
  }

  function RoundOf(steps: nat -> nat, r: nat): (s: seq<nat>)
    ensures |s| == 30
  {
    seq(30, k requires 0 <= k < 30 => steps(30 * r + k))
  }

  /** The steps come in rounds of thirty: first the draws, then each time the last thirty
      reshuffled. */
  lemma StepsComeInRounds(first: seq<nat>, shuffle: Shuffle, r: nat)
    requires Permutes(shuffle) && |first| == 30
    ensures var steps := StepsOf(first, shuffle);
            && RoundOf(steps, 0) == first
            && RoundOf(steps, r + 1) == shuffle(r + 1, RoundOf(steps, r))
            && multiset(RoundOf(steps, r)) == multiset(first)
  {
    RoundsPermute(first, shuffle, r);
    RoundsPermute(first, shuffle, r + 1);
    RoundIs(first, shuffle, 0);
    RoundIs(first, shuffle, r);
    RoundIs(first, shuffle, r + 1);
  }

  lemma RoundIs(first: seq<nat>, shuffle: Shuffle, r: nat)
    requires |Round(first, shuffle, r)| == 30
    ensures RoundOf(StepsOf(first, shuffle), r) == Round(first, shuffle, r)
  {
    var steps, round := StepsOf(first, shuffle), Round(first, shuffle, r);
    forall k | 0 <= k < 30
      ensures RoundOf(steps, r)[k] == round[k]
    {
      StepAt(first, shuffle, r, k, 30 * r + k);
    }
  }

  lemma StepAt(first: seq<nat>, shuffle: Shuffle, r: nat, k: nat, b: nat)
    requires k < 30 == |Round(first, shuffle, r)| && b == 30 * r + k
    ensures StepsOf(first, shuffle)(b) == Round(first, shuffle, r)[k]
  {
    assert b / 30 == r && b % 30 == k;
  }

  // ----- the whole pass ----------------------------------------------------

  /** What the pass may rely on once the streams are in. */
  ghost predicate Ready(vs: seq<InstrV>) {
    && vs != [] && Labelled(Last(vs)) && !Last(vs).kind.branch
    && forall v :: v in vs ==> !v.numeric && !v.branchAssigned && v.target == None
  }

  /** A line as the assembler sees it: its digit label, if it is printed, and the
      operand of a jump. */
  function LineOf(v: InstrV): Line {
    Line(if v.hasLabel && v.tag.Digit? && v.tag.n >= 0 then Some(v.tag.n) else None, v.kind.jump)
  }

  function Lines(vs: seq<InstrV>): (r: seq<Line>)
    ensures |r| == |vs| && forall i :: 0 <= i < |vs| ==> r[i] == LineOf(vs[i])
  {
    seq(|vs|, i requires 0 <= i < |vs| => LineOf(vs[i]))
  }

  /** From `base` on stands a jump stream with this order. */
  ghost predicate ChainIn(vs: seq<InstrV>, base: nat, order: seq<nat>) {
    && ChainAt(Lines(vs), base, order)
    && forall p :: base <= p <= base + |order| + 1 ==> vs[p].atomic && !vs[p].kind.branch
  }

  /** Jumps occur in whole jump streams only. */
  ghost predicate JumpsInChains(vs: seq<InstrV>) {
    forall p :: 0 <= p < |vs| && vs[p].kind.jump.Some? ==> InSomeChain(vs, p)
  }

  ghost predicate InSomeChain(vs: seq<InstrV>, p: nat) {
    exists base: nat, order: seq<nat> :: JumpIn(vs, p, base, order)
  }

  /** The instruction at `p` is one of the jumps of a stream. */
  ghost predicate JumpIn(vs: seq<InstrV>, p: nat, base: nat, order: seq<nat>) {
    ChainIn(vs, base, order) && base <= p <= base + |order|
  }

  /** A directed stream: no jumps, or just a jump stream. */
  ghost predicate JumpsAreChained(vs: seq<InstrV>) {
    (forall v :: v in vs ==> v.kind.jump == None) || exists order :: ChainIn(vs, 0, order) && |vs| == |order| + 2
  }

  /** Nothing has been assigned yet. */
  ghost predicate Fresh(x: Instr)
    reads x
  {
    !x.numeric && !x.branchAssigned && x.target == None
  }

  ghost predicate ChainedStream(s: seq<Instr>)
    reads set x | x in s
  {
    JumpsAreChained(Views(s))
  }

  /** The streams as the generator hands them over: labelled instructions that do
      not end in a branch, and directed streams that are atomic throughout and jump
      in chains only; no branch has an operand yet. */
  ghost predicate Generated(base: seq<Instr>, directed: seq<seq<Instr>>)
    reads base, set s, x | s in directed && x in s :: x
  {
    && base != [] && !Last(base).op.Branch?
    && (forall x :: x in base ==> Fresh(x) && !x.atomic && x.hasLabel && !x.op.Jump?)
    && (forall x :: x in Elements(directed) ==> Fresh(x) && x.atomic)
    && (forall s :: s in directed ==> ChainedStream(s))
    && AllApart(base, directed)
  }

  lemma DirectedIsForeign<T>(base: seq<T>, directed: seq<seq<T>>)
    requires AllApart(base, directed)
    ensures forall x :: x in Elements(directed) ==> x !in base
  {
    forall x | x in Elements(directed)
      ensures x !in base
    {
      var s :| s in directed && x in s;
      var i :| 0 <= i < |directed| && directed[i] == s;
      assert Apart(directed[i], base);
    }
  }

  lemma SplicedElements<T>(base: seq<T>, directed: seq<seq<T>>, at: seq<nat>, atomics: set<T>)
    requires LegalSeries(base, directed, at, atomics) && AllApart(base, directed) && base != []
    ensures var list := InsertAll(base, directed, at);
            && NoDup(list) && list != [] && Last(list) == Last(base)
            && forall x :: x in list ==> x in base || x in Elements(directed)
  {
    SplicesAreApart(base, directed, at);
    SeriesKeepsLast(base, directed, at, atomics);
    forall x | x in InsertAll(base, directed, at)
      ensures x in base || x in Elements(directed)
    {
      if x !in base {
        var i :| 0 <= i < |directed| && x in directed[i];
        assert directed[i] in directed;
      }
    }
  }

  /** A jump stream stays a chain wherever it is spliced in. */
  lemma StreamIsChained(vs: seq<InstrV>, us: seq<InstrV>, base: nat, p: nat)
    requires base + |us| <= |vs| && vs[base..base + |us|] == us
    requires JumpsAreChained(us) && base <= p < base + |us| && vs[p].kind.jump.Some?
    ensures InSomeChain(vs, p)
  {
    assert us[p - base] == vs[p] && us[p - base] in us;
    var order :| ChainIn(us, 0, order) && |us| == |order| + 2;
    JumpStaysInChain(vs, us, base, p, order);
  }

  lemma JumpStaysInChain(vs: seq<InstrV>, us: seq<InstrV>, base: nat, p: nat, order: seq<nat>)
    requires base + |us| <= |vs| && vs[base..base + |us|] == us && base <= p < base + |us| && us[p - base].kind.jump.Some?
    requires ChainIn(us, 0, order) && |us| == |order| + 2
    ensures InSomeChain(vs, p)
  {
    assert vs[base..base + |order| + 2] == us[0..|order| + 2];
    ChainMoves(us, 0, vs, base, order);
    LastIsNoJump(us, 0, order);
    assert JumpIn(vs, p, base, order);
  }

  lemma LastIsNoJump(vs: seq<InstrV>, base: nat, order: seq<nat>)
    requires ChainIn(vs, base, order)
    ensures vs[base + |order| + 1].kind.jump == None
  {
    assert Lines(vs)[base + |order| + 1].operand == None;
  }

  lemma ChainMoves(us: seq<InstrV>, b: nat, vs: seq<InstrV>, base: nat, order: seq<nat>)
    requires ChainIn(us, b, order) && base + |order| + 2 <= |vs|
    requires vs[base..base + |order| + 2] == us[b..b + |order| + 2]
    ensures ChainIn(vs, base, order)
  {
    var n := |order| + 2;
    LinesOfPart(us, b, b + n);
    LinesOfPart(vs, base, base + n);
    ChainInContext(Lines(us), b, Lines(vs), base, order);
    forall q | base <= q <= base + |order| + 1
      ensures vs[q].atomic && !vs[q].kind.branch
    {
      assert vs[base..base + n][q - base] == us[b..b + n][q - base] == us[b + (q - base)];
    }
  }

  lemma LinesOfPart(vs: seq<InstrV>, lo: nat, hi: nat)
    requires lo <= hi <= |vs|
    ensures Lines(vs)[lo..hi] == Lines(vs[lo..hi])
  {
  }

  lemma ContiguousStreamIsChained(list: seq<Instr>, s: seq<Instr>, p: nat)
    requires NoDup(list) && Contiguous(list, s) && ChainedStream(s) && p < |list| && list[p] in s && list[p].op.Jump?
    ensures InSomeChain(Views(list), p)
  {
    var b: nat :| ContiguousAt(list, s, b);
    PlaceInStream(list, s, b, p);
    StreamAtIsChained(list, s, b, p);
  }

  lemma StreamAtIsChained(list: seq<Instr>, s: seq<Instr>, b: nat, p: nat)
    requires ContiguousAt(list, s, b) && ChainedStream(s) && b <= p < b + |s| && list[p].op.Jump?
    ensures InSomeChain(Views(list), p)
  {
    ViewsOfPart(list, s, b);
    var vs, us := Views(list), Views(s);
    assert |vs| == |list| && |us| == |s| && vs[p] == View(list[p]);
    assert JumpsAreChained(us);
    StreamIsChained(vs, us, b, p);
  }

  lemma PlaceInStream<T>(list: seq<T>, s: seq<T>, b: nat, p: nat)
    requires NoDup(list) && ContiguousAt(list, s, b) && p < |list| && list[p] in s
    ensures b <= p < b + |s|
  {
    var m: nat :| m < |s| && s[m] == list[p];
    assert list[b + m] == list[b..b + |s|][m];
  }

  lemma ViewsOfPart(list: seq<Instr>, s: seq<Instr>, b: nat)
    requires ContiguousAt(list, s, b)
    ensures Views(list)[b..b + |s|] == Views(s)
  {
    forall i | 0 <= i < |s|
      ensures Views(list)[b..b + |s|][i] == Views(s)[i]
    {
      assert list[b..b + |s|][i] == s[i];
    }
  }

  lemma SplicedJumps(base: seq<Instr>, directed: seq<seq<Instr>>, at: seq<nat>, p: nat)
    requires Generated(base, directed) && LegalSeries(base, directed, at, Elements(directed))
    requires p < |InsertAll(base, directed, at)| && InsertAll(base, directed, at)[p].op.Jump?
    ensures InSomeChain(Views(InsertAll(base, directed, at)), p)
  {
    var list := InsertAll(base, directed, at);
    SplicedElements(base, directed, at, Elements(directed));
    assert list[p] in list && list[p] !in base;
    var s :| s in directed && list[p] in s;
    var i :| 0 <= i < |directed| && directed[i] == s;
    AtomicBlocksStayWhole(base, directed, at, Elements(directed));
    assert Contiguous(list, directed[i]);
    ContiguousStreamIsChained(list, s, p);
  }

  /** The first section: only the list changes. */
  method Splice(stream: Stream, directed: seq<seq<Instr>>, dice: nat -> Dice)
    returns (ghost at: seq<nat>, ghost vs: seq<InstrV>)
    requires Generated(stream.instrs, directed)
    requires forall n: nat :: InRange(dice(n))
    modifies stream
    ensures LegalSeries(old(stream.instrs), directed, at, Elements(directed))
    ensures stream.instrs == InsertAll(old(stream.instrs), directed, at)
    ensures NoDup(stream.instrs) && Shows(stream.instrs, vs) && Ready(vs) && JumpsInChains(vs)
    ensures forall x :: x in stream.instrs ==> x in old(stream.instrs) || x in Elements(directed)
  {
    ghost var base := stream.instrs;
    var ok;
    DirectedIsForeign(base, directed);
    assert Last(base) in base;
    ok, at := SpliceDirected(stream, directed, dice);
    assert Atomics(base, directed) == Elements(directed);
    ghost var list := stream.instrs;
    SplicedElements(base, directed, at, Elements(directed));
    vs := Views(list);
    forall p | 0 <= p < |list| && list[p].op.Jump?
      ensures InSomeChain(vs, p)
    {
      SplicedJumps(base, directed, at, p);
    }
    assert Last(vs) == View(Last(base));
  }

  method DrawSteps(roll: Dice, maxBranchStep: nat) returns (branchIdx: seq<nat>)
    requires InRange(roll) && maxBranchStep >= 1
    ensures |branchIdx| == 30 && forall x :: x in branchIdx ==> 1 <= x <= maxBranchStep
    ensures forall i :: 0 <= i < 30 ==> branchIdx[i] == 1 + roll(i, maxBranchStep)
  {
    branchIdx := [];
    for i := 0 to 30
      invariant |branchIdx| == i && forall x :: x in branchIdx ==> 1 <= x <= maxBranchStep
      invariant forall k :: 0 <= k < i ==> branchIdx[k] == 1 + roll(k, maxBranchStep)
    {
      branchIdx := branchIdx + [1 + roll(i, maxBranchStep)];
    }
  }

  /** The draws leave the program as the pass needs it. */
  lemma InjectionKeepsShape(vs: seq<InstrV>, inj: Injection)
    requires Ready(vs) && JumpsInChains(vs)
    ensures Ready(AllInjected(vs, inj)) && JumpsInChains(AllInjected(vs, inj))
  {
    var ds := AllInjected(vs, inj);
    assert Last(ds) == Injected(vs, |vs| - 1, inj);
    forall v | v in ds
      ensures !v.numeric && !v.branchAssigned && v.target == None
    {
      var i :| 0 <= i < |ds| && ds[i] == v;
      assert vs[i] in vs;
    }
    forall p | 0 <= p < |ds| && ds[p].kind.jump.Some?
      ensures InSomeChain(ds, p)
    {
      SameChains(vs, ds, p);
    }
  }

  /** Chains are a matter of lines, kinds and atomicity. */
  lemma SameChains(vs: seq<InstrV>, ds: seq<InstrV>, p: nat)
    requires InSomeChain(vs, p) && |ds| == |vs|
    requires forall q :: 0 <= q < |vs| && vs[q].atomic ==>
               LineOf(ds[q]) == LineOf(vs[q]) && ds[q].atomic && ds[q].kind.branch == vs[q].kind.branch
    ensures InSomeChain(ds, p)
  {
    var base: nat, order: seq<nat> :| JumpIn(vs, p, base, order);
    assert Lines(ds)[base..base + |order| + 2] == Lines(vs)[base..base + |order| + 2];
    ChainInContext(Lines(vs), base, Lines(ds), base, order);
    assert JumpIn(ds, p, base, order);
  }

  /** The other sections: only the instructions change. `ds` is the program with its
      illegal and hint instructions, still without labels. */
  method LabelAndBranch(list: seq<Instr>, inj: Injection, roll: Dice, maxBranchStep: nat, shuffle: Shuffle,
                        ghost vs: seq<InstrV>)
    returns (first: seq<nat>, ghost ds: seq<InstrV>)
    requires NoDup(list) && Shows(list, vs) && Ready(vs) && JumpsInChains(vs)
    requires InRange(roll) && Permutes(shuffle) && maxBranchStep >= 1
    modifies list
    ensures ds == AllInjected(vs, inj) && Ready(ds) && JumpsInChains(ds)
    ensures |first| == 30 && forall x :: x in first ==> 1 <= x <= maxBranchStep
    ensures forall i :: 0 <= i < 30 ==> first[i] == 1 + roll(i, maxBranchStep)
    ensures Shows(list, After(ds, StepsOf(first, shuffle))) && TrapsResume(vs, list)
  {
    ds := AllInjected(vs, inj);
    InjectionKeepsShape(vs, inj);
    var labelIdx := NumberLabels(list, inj, vs, ds);
    first := DrawSteps(roll, maxBranchStep);
    AssignBranches(list, labelIdx, first, shuffle, ds);
    TrapsDoResume(list, After(ds, StepsOf(first, shuffle)), vs, inj);
  }

  /** `post_process_instr`: `vs` is the spliced stream before anything was drawn. */
  method PostProcessInstr(stream: Stream, directed: seq<seq<Instr>>, dice: nat -> Dice, inj: Injection, roll: Dice,
                          maxBranchStep: nat, shuffle: Shuffle)
    returns (ghost at: seq<nat>, ghost vs: seq<InstrV>, first: seq<nat>, ghost ds: seq<InstrV>)
    requires Generated(stream.instrs, directed)
    requires (forall n: nat :: InRange(dice(n))) && InRange(roll) && Permutes(shuffle) && maxBranchStep >= 1
    modifies stream, stream.instrs, Elements(directed)
    ensures LegalSeries(old(stream.instrs), directed, at, Elements(directed))
    ensures stream.instrs == InsertAll(old(stream.instrs), directed, at)
    ensures forall x :: x in InsertAll(old(stream.instrs), directed, at) ==> old(allocated(x))
    ensures old(Shows(InsertAll(stream.instrs, directed, at), vs))
    ensures ds == AllInjected(vs, inj) && Ready(ds) && JumpsInChains(ds)
    ensures |first| == 30 && forall x :: x in first ==> 1 <= x <= maxBranchStep
    ensures forall i :: 0 <= i < 30 ==> first[i] == 1 + roll(i, maxBranchStep)
    ensures Shows(stream.instrs, After(ds, StepsOf(first, shuffle))) && TrapsResume(vs, stream.instrs)
  {
    ghost var base := stream.instrs;
    at, vs := Splice(stream, directed, dice);
    assert old(Shows(InsertAll(base, directed, at), vs));
    first, ds := LabelAndBranch(stream.instrs, inj, roll, maxBranchStep, shuffle, vs);
  }

  // ----- what the programs are good for ------------------------------------

  lemma {:induction false} RankGrows(vs: seq<InstrV>, i: nat, j: nat)
    requires i < j <= |vs|
    ensures Rank(vs, i) + (if Labelled(vs[i]) then 1 else 0) <= Rank(vs, j)
  {
    if i + 1 < j {
      RankGrows(vs, i, j - 1);
    }
  }

  /** Where label `t` stands among the first `n` instructions. */
  function Home(vs: seq<InstrV>, n: nat, t: nat): (p: nat)
    requires n <= |vs| && t < Rank(vs, n)
    ensures p < n && Labelled(vs[p]) && Rank(vs, p) == t
  {
    if Labelled(vs[n - 1]) && Rank(vs, n - 1) == t then n - 1 else Home(vs, n - 1, t)
  }

  lemma HomeIsUnique(vs: seq<InstrV>, p: nat, q: nat)
    requires p < |vs| && q < |vs| && Labelled(vs[p]) && Labelled(vs[q]) && Rank(vs, p) == Rank(vs, q)
    ensures p == q
  {
    if p < q { RankGrows(vs, p, q); }
    if q < p { RankGrows(vs, q, p); }
  }

  /** A pending branch is given a label that exists, and it stands strictly
      later, outside every atomic block. */
  lemma TargetIsLater(vs: seq<InstrV>, j: nat, steps: nat -> nat)
    requires Ready(vs) && Positive(steps) && j < |vs| && Pending(vs[j])
    ensures 0 <= Target(vs, j, steps) < Rank(vs, |vs|)
    ensures j < Home(vs, |vs|, Target(vs, j, steps))
  {
    var n := |vs| - 1;
    RankGrows(vs, j, n);
    var p := Home(vs, |vs|, Target(vs, j, steps));
    if p < j {
      RankGrows(vs, p, j);
    }
  }

  /** The pruning in the same loop is right: a label stays iff some earlier
      branch asks for it. */
  lemma LabelSurvivesIffTargeted(vs: seq<InstrV>, p: nat, steps: nat -> nat)
    requires Ready(vs) && Positive(steps) && p < |vs| && Labelled(vs[p])
    ensures After(vs, steps)[p].tag == Digit(Rank(vs, p))
    ensures After(vs, steps)[p].hasLabel <==>
            exists j :: 0 <= j < p && Pending(vs[j]) && After(vs, steps)[j].target == Some(Rank(vs, p))
  {
    var a, t := After(vs, steps), Rank(vs, p);
    forall j | 0 <= j < |vs| && Pending(vs[j])
      ensures a[j].target == Some(Target(vs, j, steps))
      ensures Target(vs, j, steps) == t ==> j < p
    {
      TargetIsLater(vs, j, steps);
      if Target(vs, j, steps) == t {
        HomeIsUnique(vs, p, Home(vs, |vs|, t));
      }
    }
    if Targeted(vs, p + 1, t, steps) {
      var j :| 0 <= j < p + 1 && Pending(vs[j]) && Target(vs, j, steps) == t;
      assert j < p && a[j].target == Some(t);
    }
  }

  /** The label t is printed here. */
  predicate LabelAt(v: InstrV, t: int) {
    v.hasLabel && v.tag == Digit(t)
  }

  /** The assembler's reading of "tf" after position `p`: the nearest label t. */
  function Nearest(a: seq<InstrV>, p: nat, t: int): Option<nat>
    requires p <= |a|
    decreases |a| - p
  {
    if p == |a| then None
    else if LabelAt(a[p], t) then Some(p)
    else Nearest(a, p + 1, t)
  }

  lemma {:induction false} NearestIs(a: seq<InstrV>, p: nat, t: int, home: nat)
    requires p <= home < |a| && LabelAt(a[home], t)
    ensures Nearest(a, p, t) == Some(home) <==> forall k :: p <= k < home ==> !LabelAt(a[k], t)
    decreases home - p
  {
    if p < home {
      NearestIs(a, p + 1, t, home);
      NearestIsNotBefore(a, p + 1, t);
    }
  }

  lemma {:induction false} NearestIsNotBefore(a: seq<InstrV>, p: nat, t: int)
    requires p <= |a|
    ensures Nearest(a, p, t).Some? ==>
              var q := Nearest(a, p, t).value;
              p <= q < |a| && LabelAt(a[q], t)
    decreases |a| - p
  {
    if p < |a| {
      NearestIsNotBefore(a, p + 1, t);
    }
  }

  /** A numeric label of its own inside an atomic stream, as a jump stream has. */
  predicate StrayDigit(v: InstrV, t: int) {
    v.atomic && v.hasLabel && v.tag == Digit(t)
  }

  /** Between a branch and its target the number of the target is no main-stream label. */
  lemma OnlyStraysBefore(vs: seq<InstrV>, home: nat, k: nat, steps: nat -> nat)
    requires Ready(vs) && Positive(steps) && k < home < |vs| && Labelled(vs[home])
    ensures LabelAt(After(vs, steps)[k], Rank(vs, home)) == StrayDigit(vs[k], Rank(vs, home))
  {
    if Labelled(vs[k]) {
      RankGrows(vs, k, home);
    }
  }

  /** The target of a branch keeps its label. */
  lemma TargetIsLabelled(vs: seq<InstrV>, j: nat, steps: nat -> nat)
    requires Ready(vs) && Positive(steps) && j < |vs| && Pending(vs[j])
    ensures 0 <= Target(vs, j, steps) < Rank(vs, |vs|)
    ensures var a, home := After(vs, steps), Home(vs, |vs|, Target(vs, j, steps));
            j < home && LabelAt(a[home], Target(vs, j, steps)) && !a[home].atomic
  {
    TargetIsLater(vs, j, steps);
    var t := Target(vs, j, steps);
    LabelSurvivesIffTargeted(vs, Home(vs, |vs|, t), steps);
    assert After(vs, steps)[j].target == Some(t);
  }

  lemma NearestUnlessStray(a: seq<InstrV>, vs: seq<InstrV>, j: nat, t: int, home: nat)
    requires |a| == |vs| && j < home < |a| && LabelAt(a[home], t)
    requires forall k :: j < k < home ==> LabelAt(a[k], t) == StrayDigit(vs[k], t)
    ensures Nearest(a, j + 1, t) == Some(home) <==> forall k :: j < k < home ==> !StrayDigit(vs[k], t)
  {
    NearestIs(a, j + 1, t, home);
  }

  /** The operand reaches the label it was made for exactly if no spliced stream
      in between carries the same number. */
  lemma OperandResolves(vs: seq<InstrV>, j: nat, steps: nat -> nat)
    requires Ready(vs) && Positive(steps) && j < |vs| && Pending(vs[j])
    ensures 0 <= Target(vs, j, steps) < Rank(vs, |vs|)
    ensures var a, t := After(vs, steps), Target(vs, j, steps);
            var home := Home(vs, |vs|, t);
            && j < home && LabelAt(a[home], t) && !a[home].atomic
            && (Nearest(a, j + 1, t) == Some(home) <==> forall k :: j < k < home ==> !StrayDigit(vs[k], t))
  {
    TargetIsLabelled(vs, j, steps);
    var a, t := After(vs, steps), Target(vs, j, steps);
    var home := Home(vs, |vs|, t);
    forall k | j < k < home
      ensures LabelAt(a[k], t) == StrayDigit(vs[k], t)
    {
      OnlyStraysBefore(vs, home, k, steps);
    }
    NearestUnlessStray(a, vs, j, t, home);
  }
}
