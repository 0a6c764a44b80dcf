/** Runs of a program after its branches were assigned.

The assembler resolves every operand to the nearest label of its number. Branches
may go either way; a branch whose label is captured by a jump stream enters that
stream in the middle and follows its jumps. For every outcome of the branches a run
leaves the program within its length: along a run a key rises, which is the position
outside jump streams and the place in the order of the jumps inside them. */
module BranchRuns {
  import opened BranchPass
  import opened Collections
  import opened InstrStream
  import opened JumpChain
  import opened Wrappers

  // ----- the machine -------------------------------------------------------

  /** The assembler's reading of "tb" in front of position `p`. */
  function NearestBefore(a: seq<InstrV>, p: nat, t: int): (r: Option<nat>)
    requires p <= |a|
    ensures r.Some? ==> r.value < p
  {
    if p == 0 then None
    else if LabelAt(a[p - 1], t) then Some(p - 1)
    else NearestBefore(a, p - 1, t)
  }

  /** A branch whose operand is in effect; one turned into an illegal instruction
      resumes behind itself. */
  predicate Live(v: InstrV) {
    v.kind.branch && v.target.Some? && !v.illegal
  }

  /** One step of a run; `taken` is the outcome if a branch is executed here. */
  function Next(a: seq<InstrV>, pc: nat, taken: bool): Option<nat>
    requires pc < |a|
  {
    match a[pc].kind.jump
    case Some(Forward(n)) => Nearest(a, pc + 1, n)
    case Some(Backward(n)) => NearestBefore(a, pc + 1, n)
    case None => if Live(a[pc]) && taken then Nearest(a, pc + 1, a[pc].target.value) else Some(pc + 1)
  }

  /** The position after `n` steps, staying put at the end of the program; None if an
      operand could not be resolved. */
  function Pc(a: seq<InstrV>, outcomes: nat -> bool, n: nat): (r: Option<nat>)
    ensures r.Some? ==> r.value <= |a|
  {
    if n == 0 then Some(0)
    else match Pc(a, outcomes, n - 1)
      case None => None
      case Some(pc) =>
        if pc == |a| then Some(pc)
        else
          NextIsInside(a, pc, outcomes(n - 1));
          Next(a, pc, outcomes(n - 1))
  }

  lemma NextIsInside(a: seq<InstrV>, pc: nat, taken: bool)
    requires pc < |a|
    ensures Next(a, pc, taken).Some? ==> Next(a, pc, taken).value <= |a|
  {
    match a[pc].kind.jump {
      case Some(Forward(n)) => NearestIsNotBefore(a, pc + 1, n);
      case Some(Backward(n)) =>
      case None =>
        if Live(a[pc]) {
          NearestIsNotBefore(a, pc + 1, a[pc].target.value);
        }
    }
  }

  lemma PcStep(a: seq<InstrV>, outcomes: nat -> bool, n: nat, pc: nat)
    requires pc <= |a| && Pc(a, outcomes, n) == Some(pc)
    ensures Pc(a, outcomes, n + 1) == if pc == |a| then Some(pc) else Next(a, pc, outcomes(n))
  {
  }

  // ----- inside a jump stream ----------------------------------------------

  lemma {:induction false} NearestBeforeIs(a: seq<InstrV>, p: nat, t: int, q: nat)
    requires q < p <= |a| && LabelAt(a[q], t) && forall k :: q < k < p ==> !LabelAt(a[k], t)
    ensures NearestBefore(a, p, t) == Some(q)
  {
    if q < p - 1 {
      NearestBeforeIs(a, p - 1, t, q);
    }
  }

  lemma TagIsLabel(v: InstrV, t: nat)
    ensures LineOf(v).tag == Some(t) <==> LabelAt(v, t)
  {
  }

  /** The machine takes a jump where the reading of its operand leads. */
  lemma JumpGoes(a: seq<InstrV>, p: nat, q: nat, taken: bool)
    requires p < |a| && a[p].kind.jump.Some? && Leads(Lines(a), p, q)
    ensures Next(a, p, taken) == Some(q)
  {
    var n: nat := match a[p].kind.jump.value case Forward(n) => n case Backward(n) => n;
    assert Lines(a)[p].operand == a[p].kind.jump;
    TagIsLabel(a[q], n);
    assert Lines(a)[q] == LineOf(a[q]);
    forall k | 0 <= k < |a| && Lines(a)[k].tag != Some(n)
      ensures !LabelAt(a[k], n)
    {
      TagIsLabel(a[k], n);
    }
    if a[p].kind.jump.value.Forward? {
      NearestIs(a, p + 1, n, q);
    } else {
      NearestBeforeIs(a, p + 1, n, q);
    }
  }

  lemma InnerIsJump(a: seq<InstrV>, base: nat, order: seq<nat>, p: nat)
    requires ChainIn(a, base, order) && base <= p <= base + |order|
    ensures a[p].kind.jump.Some?
  {
    assert Lines(a)[p].operand == a[p].kind.jump;
    if p > base {
      Onto(order, p - base - 1);
      var k :| 0 <= k < |order| && order[k] == p - base - 1;
      assert Lines(a)[base + 1 + order[k]].operand == Some(OperandAt(order, k));
    }
  }

  /** One step along the path of a jump stream. */
  lemma StepInChain(a: seq<InstrV>, base: nat, order: seq<nat>, t: nat, taken: bool)
    requires ChainIn(a, base, order) && t <= |order| + 1
    ensures Path(base, order)[t] < |a|
    ensures Next(a, Path(base, order)[t], taken)
         == Some(if t <= |order| then Path(base, order)[t + 1] else base + |order| + 2)
  {
    var path := Path(base, order);
    assert path[|order| + 1] == base + |order| + 1;
    if t <= |order| {
      assert path[t] <= base + |order|;
      PathLeads(Lines(a), base, order, t);
      InnerIsJump(a, base, order, path[t]);
      JumpGoes(a, path[t], path[t + 1], taken);
    } else {
      LastIsNoJump(a, base, order);
    }
  }

  /** Entered at any of its lines, a jump stream is left behind its last one, after
      executing the jumps that come later in the order. */
  lemma {:induction false} StreamIsLeft(a: seq<InstrV>, base: nat, order: seq<nat>, t: nat, outcomes: nat -> bool, n: nat)
    requires ChainIn(a, base, order) && t <= |order| + 1 && Pc(a, outcomes, n) == Some(Path(base, order)[t])
    ensures Pc(a, outcomes, n + (|order| + 2 - t)) == Some(base + |order| + 2)
    decreases |order| + 2 - t
  {
    StepInChain(a, base, order, t, outcomes(n));
    PcStep(a, outcomes, n, Path(base, order)[t]);
    if t <= |order| {
      StreamIsLeft(a, base, order, t + 1, outcomes, n + 1);
    }
  }

  // ----- the key of a position ---------------------------------------------

  ghost predicate InChain(a: seq<InstrV>, p: nat, base: nat, order: seq<nat>) {
    ChainIn(a, base, order) && base <= p <= base + |order| + 1
  }

  ghost predicate Outside(a: seq<InstrV>, p: nat) {
    forall base: nat, order: seq<nat> :: !InChain(a, p, base, order)
  }

  ghost predicate KeyIn(a: seq<InstrV>, p: nat, key: nat, base: nat, order: seq<nat>) {
    ChainIn(a, base, order) && base <= key <= base + |order| + 1 && p == Path(base, order)[key - base]
  }

  /** The position, or the base of a jump stream plus the place on its path. */
  ghost predicate HasKey(a: seq<InstrV>, p: nat, key: nat) {
    (Outside(a, p) && key == p) || exists base: nat, order: seq<nat> :: KeyIn(a, p, key, base, order)
  }

  lemma KeyInChain(a: seq<InstrV>, p: nat, base: nat, order: seq<nat>) returns (key: nat)
    requires InChain(a, p, base, order)
    ensures HasKey(a, p, key) && base <= key
  {
    var t := PathCovers(base, order, p);
    key := base + t;
    assert KeyIn(a, p, key, base, order);
  }

  /** What the pass guarantees to a run. */
  ghost predicate Runnable(a: seq<InstrV>) {
    && JumpsInChains(a)
    && forall p :: 0 <= p < |a| && Live(a[p]) ==> TargetAhead(a, p)
  }

  ghost predicate TargetAhead(a: seq<InstrV>, p: nat)
    requires p < |a|
  {
    a[p].target.Some? && exists q :: p < q < |a| && LabelAt(a[q], a[p].target.value)
  }

  /** A position has a key, not below the streams it may belong to. */
  lemma SomeKey(a: seq<InstrV>, q: nat, lowest: nat) returns (key: nat)
    requires lowest <= q && forall base: nat, order: seq<nat> :: InChain(a, q, base, order) ==> lowest <= base
    ensures HasKey(a, q, key) && lowest <= key
  {
    if Outside(a, q) {
      key := q;
    } else {
      var base: nat, order: seq<nat> :| InChain(a, q, base, order);
      key := KeyInChain(a, q, base, order);
    }
  }

  /** From outside all streams, any step ahead raises the key. */
  lemma AheadOfOutside(a: seq<InstrV>, p: nat, q: nat) returns (key: nat)
    requires Outside(a, p) && p < q
    ensures HasKey(a, q, key) && p < key
  {
    forall base: nat, order: seq<nat> | InChain(a, q, base, order)
      ensures p < base
    {
      assert !InChain(a, p, base, order);
    }
    key := SomeKey(a, q, p + 1);
  }

  /** Behind a stream nothing but another stream's first line or a line outside. */
  lemma BehindStream(a: seq<InstrV>, base: nat, order: seq<nat>) returns (key: nat)
    requires ChainIn(a, base, order)
    ensures HasKey(a, base + |order| + 2, key) && base + |order| + 1 < key
  {
    var q := base + |order| + 2;
    forall base': nat, order': seq<nat> | InChain(a, q, base', order')
      ensures base' == q
    {
      StreamsDoNotOverlap(a, base, order, base', order');
    }
    key := SomeKey(a, q, q);
  }

  lemma StreamsDoNotOverlap(a: seq<InstrV>, base: nat, order: seq<nat>, base': nat, order': seq<nat>)
    requires ChainIn(a, base, order) && InChain(a, base + |order| + 2, base', order')
    ensures base' == base + |order| + 2
  {
    LastIsNoJump(a, base, order);
    if base' < base + |order| + 2 {
      InnerIsJump(a, base', order', base + |order| + 1);
      assert false;
    }
  }

  lemma StepOutside(a: seq<InstrV>, pc: nat, taken: bool) returns (key: nat)
    requires Runnable(a) && pc < |a| && Outside(a, pc)
    ensures Next(a, pc, taken).Some? && HasKey(a, Next(a, pc, taken).value, key) && pc < key
  {
    if a[pc].kind.jump.Some? {
      assert InSomeChain(a, pc);
      var base: nat, order: seq<nat> :| JumpIn(a, pc, base, order);
      assert InChain(a, pc, base, order);
      assert false;
    }
    if Live(a[pc]) {
      assert TargetAhead(a, pc);
      var q :| pc < q < |a| && LabelAt(a[q], a[pc].target.value);
      NearestFinds(a, pc + 1, a[pc].target.value, q);
      NearestIsNotBefore(a, pc + 1, a[pc].target.value);
    }
    key := AheadOfOutside(a, pc, Next(a, pc, taken).value);
  }

  lemma {:induction false} NearestFinds(a: seq<InstrV>, p: nat, t: int, q: nat)
    requires p <= q < |a| && LabelAt(a[q], t)
    ensures Nearest(a, p, t).Some? && Nearest(a, p, t).value <= q
    decreases q - p
  {
    if p < q {
      NearestFinds(a, p + 1, t, q);
    }
  }

  lemma StepInside(a: seq<InstrV>, pc: nat, key: nat, base: nat, order: seq<nat>, taken: bool) returns (key': nat)
    requires pc < |a| && KeyIn(a, pc, key, base, order)
    ensures Next(a, pc, taken).Some? && HasKey(a, Next(a, pc, taken).value, key') && key < key'
  {
    StepInChain(a, base, order, key - base, taken);
    if key - base <= |order| {
      key' := key + 1;
      assert KeyIn(a, Path(base, order)[key + 1 - base], key + 1, base, order);
    } else {
      key' := BehindStream(a, base, order);
    }
  }

  /** Every step raises the key. */
  lemma KeyRises(a: seq<InstrV>, pc: nat, key: nat, taken: bool) returns (key': nat)
    requires Runnable(a) && pc < |a| && HasKey(a, pc, key)
    ensures Next(a, pc, taken).Some? && HasKey(a, Next(a, pc, taken).value, key') && key < key'
  {
    if Outside(a, pc) && key == pc {
      key' := StepOutside(a, pc, taken);
    } else {
      var base: nat, order: seq<nat> :| KeyIn(a, pc, key, base, order);
      key' := StepInside(a, pc, key, base, order, taken);
    }
  }

  lemma FirstKey(a: seq<InstrV>) returns (key: nat)
    ensures Advanced(a, Some(0), key, 0)
  {
    key := SomeKey(a, 0, 0);
    if a != [] {
      KeyIsInside(a, 0, key);
    }
  }

  /** After `n` steps a run is at the end or has a key of at least `n`. */
  lemma {:induction false} RunAdvances(a: seq<InstrV>, outcomes: nat -> bool, n: nat) returns (key: nat)
    requires Runnable(a)
    ensures Advanced(a, Pc(a, outcomes, n), key, n)
  {
    if n == 0 {
      key := FirstKey(a);
    } else {
      key := RunAdvances(a, outcomes, n - 1);
      key := OneMore(a, Pc(a, outcomes, n - 1).value, key, n - 1, outcomes(n - 1));
    }
  }

  ghost predicate Advanced(a: seq<InstrV>, pc: Option<nat>, key: nat, n: nat) {
    pc.Some? && (pc.value < |a| ==> HasKey(a, pc.value, key) && n <= key < |a|)
  }

  lemma OneMore(a: seq<InstrV>, pc: nat, key: nat, n: nat, taken: bool) returns (key': nat)
    requires Runnable(a) && pc <= |a| && Advanced(a, Some(pc), key, n)
    ensures pc < |a| ==> Advanced(a, Next(a, pc, taken), key', n + 1)
  {
    key' := key;
    if pc < |a| {
      key' := KeyRises(a, pc, key, taken);
      if Next(a, pc, taken).value < |a| {
        KeyIsInside(a, Next(a, pc, taken).value, key');
      }
    }
  }

  lemma KeyIsInside(a: seq<InstrV>, pc: nat, key: nat)
    requires pc < |a| && HasKey(a, pc, key)
    ensures key < |a|
  {
  }

  // ----- the programs of the pass ------------------------------------------

  lemma PassKeepsLine(vs: seq<InstrV>, steps: nat -> nat, q: nat)
    requires q < |vs| && vs[q].atomic
    ensures var v := After(vs, steps)[q];
            LineOf(v) == LineOf(vs[q]) && v.atomic && v.kind == vs[q].kind
  {
  }

  lemma PassKeepsStreams(vs: seq<InstrV>, steps: nat -> nat)
    requires JumpsInChains(vs)
    ensures JumpsInChains(After(vs, steps))
  {
    var a := After(vs, steps);
    forall q | 0 <= q < |vs| && vs[q].atomic
      ensures LineOf(a[q]) == LineOf(vs[q]) && a[q].atomic && a[q].kind.branch == vs[q].kind.branch
    {
      PassKeepsLine(vs, steps, q);
    }
    forall p | 0 <= p < |a| && a[p].kind.jump.Some?
      ensures InSomeChain(a, p)
    {
      assert vs[p].kind == a[p].kind;
      SameChains(vs, a, p);
    }
  }

  /** The pass keeps the jump streams and gives every branch a label ahead. */
  lemma PassMakesRunnable(vs: seq<InstrV>, steps: nat -> nat)
    requires Ready(vs) && Positive(steps) && JumpsInChains(vs)
    ensures Runnable(After(vs, steps))
  {
    PassKeepsStreams(vs, steps);
    var a := After(vs, steps);
    forall p | 0 <= p < |a| && Live(a[p])
      ensures TargetAhead(a, p)
    {
      assert vs[p] in vs && Pending(vs[p]);
      TargetIsLabelled(vs, p, steps);
      assert a[p].target == Some(Target(vs, p, steps));
    }
  }

  /** Whatever the branches do, whatever they are captured by, and whatever jump
      streams there are: every run ends, and takes no more steps than the program
      has lines. */
  lemma EveryRunLeaves(vs: seq<InstrV>, steps: nat -> nat, outcomes: nat -> bool, n: nat)
    requires Ready(vs) && Positive(steps) && JumpsInChains(vs)
    ensures Pc(After(vs, steps), outcomes, n).Some?
    ensures n >= |vs| ==> Pc(After(vs, steps), outcomes, n) == Some(|vs|)
  {
    PassMakesRunnable(vs, steps);
    var key := RunAdvances(After(vs, steps), outcomes, n);
  }

  /** So every program that `post_process_instr` leaves behind is left by every run:
      the requires are what that method ensures. */
  lemma GeneratedProgramsEnd(ds: seq<InstrV>, first: seq<nat>, shuffle: Shuffle, maxBranchStep: nat, outcomes: nat -> bool)
    requires Ready(ds) && JumpsInChains(ds) && Permutes(shuffle)
    requires |first| == 30 && forall x :: x in first ==> 1 <= x <= maxBranchStep
    ensures Pc(After(ds, StepsOf(first, shuffle)), outcomes, |ds|) == Some(|ds|)
  {
    StepsArePositive(first, shuffle, maxBranchStep);
    EveryRunLeaves(ds, StepsOf(first, shuffle), outcomes, |ds|);
  }

  lemma NoJumpsNoStreams(a: seq<InstrV>, p: nat)
    requires forall q :: 0 <= q < |a| ==> a[q].kind.jump == None
    ensures Outside(a, p)
  {
    forall base: nat, order: seq<nat>
      ensures !InChain(a, p, base, order)
    {
      if InChain(a, p, base, order) {
        InnerIsJump(a, base, order, base);
        assert false;
      }
    }
  }

  /** Without jumps a run goes forward only. */
  lemma RunGoesForward(vs: seq<InstrV>, steps: nat -> nat, outcomes: nat -> bool, n: nat)
    requires Ready(vs) && Positive(steps) && forall v :: v in vs ==> v.kind.jump == None
    ensures Pc(After(vs, steps), outcomes, n).Some?
    ensures Pc(After(vs, steps), outcomes, n).value >= (if n <= |vs| then n else |vs|)
  {
    var a := After(vs, steps);
    forall p | 0 <= p < |vs|
      ensures vs[p].kind.jump == None && a[p].kind.jump == None
    {
      assert vs[p] in vs;
    }
    PassMakesRunnable(vs, steps);
    var key := RunAdvances(a, outcomes, n);
    var pc := Pc(a, outcomes, n).value;
    if pc < |a| {
      NoJumpsNoStreams(a, pc);
      KeyOutside(a, pc, key);
    }
  }

  lemma KeyOutside(a: seq<InstrV>, p: nat, key: nat)
    requires Outside(a, p) && HasKey(a, p, key) && p < |a|
    ensures key == p
  {
    if key != p {
      var base: nat, order: seq<nat> :| KeyIn(a, p, key, base, order);
      assert InChain(a, p, base, order);
      assert false;
    }
  }

  // ----- landing inside an atomic block ------------------------------------

  /** A pending branch goes to the nearest label of its number. */
  lemma BranchGoes(vs: seq<InstrV>, steps: nat -> nat, j: nat)
    requires Ready(vs) && j < |vs| && Pending(vs[j]) && vs[j].kind.jump == None
    ensures Next(After(vs, steps), j, true) == Nearest(After(vs, steps), j + 1, Target(vs, j, steps))
  {
    assert Live(After(vs, steps)[j]) && After(vs, steps)[j].target == Some(Target(vs, j, steps));
  }

  /** A taken branch lands on its target or, exactly if a stray label of the same
      number stands in between, inside an atomic block before it. */
  lemma BranchLandsInsideIff(vs: seq<InstrV>, steps: nat -> nat, j: nat)
    requires Ready(vs) && Positive(steps) && j < |vs| && Pending(vs[j]) && vs[j].kind.jump == None
    ensures 0 <= Target(vs, j, steps) < Rank(vs, |vs|)
    ensures var a, t := After(vs, steps), Target(vs, j, steps);
            var to, home := Next(a, j, true), Home(vs, |vs|, t);
            && to.Some? && j < to.value <= home
            && (a[to.value].atomic <==> exists k :: j < k < home && StrayDigit(vs[k], t))
            && (!a[to.value].atomic ==> to.value == home)
  {
    BranchGoes(vs, steps, j);
    OperandResolves(vs, j, steps);
    LandsInsideIff(vs, steps, j, Target(vs, j, steps), Home(vs, |vs|, Target(vs, j, steps)));
  }

  lemma LandsInsideIff(vs: seq<InstrV>, steps: nat -> nat, j: nat, t: int, home: nat)
    requires Ready(vs) && Positive(steps) && j < home < |vs| && Labelled(vs[home]) && Rank(vs, home) == t
    requires LabelAt(After(vs, steps)[home], t) && !After(vs, steps)[home].atomic
    ensures LandsRight(After(vs, steps), vs, Nearest(After(vs, steps), j + 1, t), j, t, home)
  {
    var a := After(vs, steps);
    forall k | j < k < home
      ensures LabelAt(a[k], t) == StrayDigit(vs[k], t) && a[k].atomic == vs[k].atomic
    {
      OnlyStraysBefore(vs, home, k, steps);
    }
    NearestLands(a, vs, j, t, home);
  }

  ghost predicate LandsRight(a: seq<InstrV>, vs: seq<InstrV>, to: Option<nat>, j: nat, t: int, home: nat)
    requires home < |a| == |vs|
  {
    && to.Some? && j < to.value <= home
    && (a[to.value].atomic <==> exists k :: j < k < home && StrayDigit(vs[k], t))
    && (!a[to.value].atomic ==> to.value == home)
  }

  lemma NearestLands(a: seq<InstrV>, vs: seq<InstrV>, j: nat, t: int, home: nat)
    requires |a| == |vs| && j < home < |a| && LabelAt(a[home], t) && !a[home].atomic
    requires forall k :: j < k < home ==> LabelAt(a[k], t) == StrayDigit(vs[k], t) && a[k].atomic == vs[k].atomic
    ensures LandsRight(a, vs, Nearest(a, j + 1, t), j, t, home)
  {
    NearestFinds(a, j + 1, t, home);
    NearestIsNotBefore(a, j + 1, t);
    NearestIs(a, j + 1, t, home);
  }

  /** Every jump stream that stands before the target and has its number captures the
      branch: control goes to that label in the stream or to an earlier one. */
  lemma {:induction false} JumpStreamCapturesBranch(vs: seq<InstrV>, steps: nat -> nat, j: nat, base: nat, order: seq<nat>)
    requires Ready(vs) && Positive(steps) && j < |vs| && Pending(vs[j]) && vs[j].kind.jump == None
    requires ChainIn(vs, base, order) && 0 <= Target(vs, j, steps) < Rank(vs, |vs|)
    requires j < base && base + |order| + 1 < Home(vs, |vs|, Target(vs, j, steps)) && Target(vs, j, steps) <= |order|
    ensures var a, to := After(vs, steps), Next(After(vs, steps), j, true);
            to.Some? && j < to.value <= base + 1 + Target(vs, j, steps) && a[to.value].atomic
  {
    var t := Target(vs, j, steps);
    StreamHasLabel(vs, steps, base, order, t);
    StrayIsEntered(vs, steps, j, base + 1 + t);
    LabelIsReached(vs, steps, j, base + 1 + t);
  }

  lemma StrayIsEntered(vs: seq<InstrV>, steps: nat -> nat, j: nat, p: nat)
    requires Ready(vs) && Positive(steps) && j < |vs| && Pending(vs[j]) && vs[j].kind.jump == None
    requires 0 <= Target(vs, j, steps) < Rank(vs, |vs|)
    requires j < p < Home(vs, |vs|, Target(vs, j, steps)) && StrayDigit(vs[p], Target(vs, j, steps))
    ensures Next(After(vs, steps), j, true).Some?
    ensures j < Next(After(vs, steps), j, true).value < |vs| && After(vs, steps)[Next(After(vs, steps), j, true).value].atomic
  {
    BranchLandsInsideIff(vs, steps, j);
  }

  lemma LabelIsReached(vs: seq<InstrV>, steps: nat -> nat, j: nat, p: nat)
    requires Ready(vs) && j < p < |vs| && Pending(vs[j]) && vs[j].kind.jump == None
    requires LabelAt(After(vs, steps)[p], Target(vs, j, steps))
    ensures Next(After(vs, steps), j, true).Some? && Next(After(vs, steps), j, true).value <= p
  {
    BranchGoes(vs, steps, j);
    NearestFinds(After(vs, steps), j + 1, Target(vs, j, steps), p);
  }

  lemma StreamHasLabel(vs: seq<InstrV>, steps: nat -> nat, base: nat, order: seq<nat>, t: nat)
    requires ChainIn(vs, base, order) && t <= |order|
    ensures base + 1 + t < |vs| && StrayDigit(vs[base + 1 + t], t) && LabelAt(After(vs, steps)[base + 1 + t], t)
  {
    var p := base + 1 + t;
    assert Lines(vs)[p].tag == Some(t) && Lines(vs)[p] == LineOf(vs[p]);
    TagIsLabel(vs[p], t);
    PassKeepsLine(vs, steps, p);
    TagIsLabel(After(vs, steps)[p], t);
  }

  // ----- programs where it happens -----------------------------------------

  const PLAIN := InstrV(Kind(false, None, false, false), false, true, Unlabelled, false, -1, false, false, false, None)
  const BRANCH := PLAIN.(kind := Kind(true, None, false, false))

  /** A jump stream as instructions. */
  function StreamOf(lines: seq<Line>): (vs: seq<InstrV>)
    ensures |vs| == |lines|
    ensures forall i :: 0 <= i < |vs| ==> LineOf(vs[i]) == lines[i] && vs[i].atomic && !vs[i].kind.branch
    ensures forall i :: 0 <= i < |vs| ==> !vs[i].numeric && !vs[i].branchAssigned && vs[i].target == None
  {
    seq(|lines|, i requires 0 <= i < |lines| =>
      PLAIN.(kind := Kind(false, lines[i].operand, false, false), atomic := true,
             tag := if lines[i].tag.Some? then Digit(lines[i].tag.value) else Unlabelled))
  }

  /** A branch, a jump stream and a last instruction. */
  function Captured(lines: seq<Line>): seq<InstrV> {
    [BRANCH] + StreamOf(lines) + [PLAIN]
  }

  lemma CapturedHasChain(lines: seq<Line>, order: seq<nat>)
    requires ChainAt(lines, 0, order) && |lines| == |order| + 2
    ensures ChainIn(Captured(lines), 1, order) && JumpsInChains(Captured(lines))
  {
    var vs, us := Captured(lines), StreamOf(lines);
    assert Lines(us) == lines;
    assert ChainIn(us, 0, order);
    assert vs[1..1 + |us|] == us == us[0..|us|];
    ChainMoves(us, 0, vs, 1, order);
    forall p | 0 <= p < |vs| && vs[p].kind.jump.Some?
      ensures InSomeChain(vs, p)
    {
      StreamIsChained(vs, us, 1, p);
    }
  }

  lemma {:induction false} RankInside(lines: seq<Line>, k: nat)
    requires 1 <= k <= |lines| + 1
    ensures Rank(Captured(lines), k) == 1
  {
    if k > 1 {
      RankInside(lines, k - 1);
      assert Captured(lines)[k - 1] == StreamOf(lines)[k - 2];
    }
  }

  lemma CapturedTarget(lines: seq<Line>, steps: nat -> nat)
    requires Positive(steps)
    ensures var vs := Captured(lines);
            Pending(vs[0]) && Rank(vs, |vs|) == 2 && Target(vs, 0, steps) == 1 && Home(vs, |vs|, 1) == |vs| - 1
  {
    var vs := Captured(lines);
    RankInside(lines, |vs| - 1);
    assert Rank(vs, |vs|) == 2;
    assert steps(Turn(vs, 0)) >= 1;
  }

  /** The generator's own jump streams capture branches: put one between a branch and
      the last instruction, and whatever order and step were drawn, the branch is meant
      for the last instruction and goes to label 1 of the stream. */
  lemma CapturingProgram(lines: seq<Line>, order: seq<nat>, steps: nat -> nat)
    requires ChainAt(lines, 0, order) && |lines| == |order| + 2 && lines[0].tag == None && Positive(steps)
    ensures var vs := Captured(lines);
            && Ready(vs) && JumpsInChains(vs) && Pending(vs[0]) && Rank(vs, |vs|) == 2
            && Target(vs, 0, steps) == 1 && Home(vs, |vs|, 1) == |vs| - 1
            && Next(After(vs, steps), 0, true) == Some(3) && After(vs, steps)[3].atomic
  {
    var vs := Captured(lines);
    CapturedHasChain(lines, order);
    CapturedTarget(lines, steps);
    CapturedIsReady(lines);
    BranchGoes(vs, steps, 0);
    CapturedLabels(lines, order, steps);
    NearestIs(After(vs, steps), 1, 1, 3);
  }

  lemma CapturedIsReady(lines: seq<Line>)
    ensures Ready(Captured(lines))
  {
    var vs := Captured(lines);
    forall v | v in vs
      ensures !v.numeric && !v.branchAssigned && v.target == None
    {
      assert v == BRANCH || v == PLAIN || v in StreamOf(lines);
    }
  }

  lemma CapturedLabels(lines: seq<Line>, order: seq<nat>, steps: nat -> nat)
    requires ChainAt(lines, 0, order) && |lines| == |order| + 2 && lines[0].tag == None
    ensures var a := After(Captured(lines), steps);
            a[3].atomic && LabelAt(a[3], 1) && forall k :: 1 <= k < 3 ==> !LabelAt(a[k], 1)
  {
    var vs := Captured(lines);
    forall k | 1 <= k <= 3
      ensures After(vs, steps)[k].atomic && LabelAt(After(vs, steps)[k], 1) == (k == 3)
    {
      assert vs[k] == StreamOf(lines)[k - 1];
      PassKeepsLine(vs, steps, k);
      TagIsLabel(After(vs, steps)[k], 1);
    }
  }
}
