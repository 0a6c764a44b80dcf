/** Matrix product over a shared transpose, under every interleaving.

The cores first fill the transpose of B together, one barrier per column, and
then multiply, one barrier per four results. The scheduler may run any core at
any moment; a step is one access to the shared arrays or one access to the
shared variables of the barrier. Proved for every schedule: no cell of the
transpose is read before it is written, every core passes the same number of
barriers, the product is complete and right when all cores are done, no state
is a deadlock, and only boundedly many steps can have an effect. */
module SharedTranspose {
  import opened Arithmetic
  import opened Matrix
  import SenseBarrier
  import opened Wrappers

  const BB_SIZE := 1024

  /** What the cores were started with; `Valid` are the sizes the kernel needs. */
  datatype Job = Job(cores: nat, lda: nat, a: seq<int>, b: seq<int>) {
    ghost predicate Valid() {
      && cores > 0 && lda % cores == 0 && lda % 8 == 0 && lda * lda <= BB_SIZE
      && |a| == |b| == lda * lda
    }

    /** Rows per core. */
    function Rows(): nat
      requires cores > 0
    {
      lda / cores
    }

    function Lo(core: nat): nat
      requires cores > 0
    {
      core * Rows()
    }

    function Hi(core: nat): nat
      requires cores > 0
    {
      (core + 1) * Rows()
    }
  }

  /** The position of a core in its loops. `Mac` is the x-th multiply-add of the
      unrolled body at column k; at the ends of `Write` and `Store` stands the
      call of the barrier. */
  datatype Pc =
    | Write(k: nat, i: nat)
    | Mac(i: nat, j: nat, k: nat, x: nat)
    | Store(i: nat, j: nat, r: nat)
    | Done

  /** `acc` are c1 to c4. */
  datatype Core = Core(pc: Pc, acc: seq<int>)

  /** `bb` distinguishes cells nobody has written yet; reading one is a fault. */
  datatype State = State(cores: seq<Core>, barrier: SenseBarrier.Barrier, bb: seq<Option<int>>, c: seq<int>, fault: bool)

  // ----- the program -------------------------------------------------------

  predicate AtBarrier(job: Job, core: nat, pc: Pc)
    requires job.cores > 0
  {
    match pc
    case Write(k, i) => i == job.Hi(core)
    case Store(i, j, r) => r == 4
    case _ => false
  }

  function StartPc(job: Job, core: nat): Pc
    requires job.cores > 0
  {
    if job.lda == 0 then Done else Write(0, job.Lo(core))
  }

  function AfterBarrier(job: Job, core: nat, pc: Pc): Pc
    requires job.cores > 0
  {
    match pc
    case Write(k, i) => if k + 1 < job.lda then Write(k + 1, job.Lo(core)) else Mac(0, job.Lo(core), 0, 0)
    case Store(i, j, r) =>
      if j + 1 < job.Hi(core) then Mac(i, j + 1, 0, 0)
      else if i + 4 < job.lda then Mac(i + 4, job.Lo(core), 0, 0)
      else Done
    case _ => pc
  }

  const CLEARED: seq<int> := [0, 0, 0, 0]

  /** Loop variables are inside their loops. */
  predicate InLoops(job: Job, core: nat, pc: Pc)
    requires job.cores > 0
  {
    match pc
    case Write(k, i) => k < job.lda && job.Lo(core) <= i <= job.Hi(core)
    case Mac(i, j, k, x) =>
      i % 4 == 0 && i + 4 <= job.lda && job.Lo(core) <= j < job.Hi(core) && k % 8 == 0 && k + 8 <= job.lda && x < 32
    case Store(i, j, r) => i % 4 == 0 && i + 4 <= job.lda && job.Lo(core) <= j < job.Hi(core) && r <= 4
    case Done => true
  }

  ghost predicate Sane(job: Job, s: State)
    requires job.Valid()
  {
    && |s.cores| == |s.barrier.threads| == job.cores && |s.bb| == BB_SIZE && |s.c| == job.lda * job.lda
    && (forall d :: 0 <= d < job.cores ==>
          job.Hi(d) <= job.lda && InLoops(job, d, s.cores[d].pc) && |s.cores[d].acc| == 4)
  }

  /** BB[i*lda + k] = B[k*lda + i] */
  function WriteWork(job: Job, s: State, c: nat): State
    requires job.Valid() && Sane(job, s) && c < job.cores && s.cores[c].pc.Write? && !AtBarrier(job, c, s.cores[c].pc)
  {
    var k, i := s.cores[c].pc.k, s.cores[c].pc.i;
    s.(cores := s.cores[c := s.cores[c].(pc := Write(k, i + 1))],
       bb := s.bb[At(job.lda, i, k) := Some(job.b[At(job.lda, k, i)])])
  }

  /** The multiply-adds come in four groups of eight, one group per accumulator. */
  function MacWork(job: Job, s: State, c: nat): State
    requires job.Valid() && Sane(job, s) && c < job.cores && s.cores[c].pc.Mac?
  {
    var Mac(i, j, k, x) := s.cores[c].pc;
    var acc, r, t := s.cores[c].acc, x / 8, x % 8;
    var cell := s.bb[At(job.lda, i + r, k + t)];
    if cell == None then s.(fault := true)
    else
      s.(cores := s.cores[c := Core(MacNext(job, s.cores[c].pc),
                                    acc[r := acc[r] + job.a[At(job.lda, j, k + t)] * cell.value])])
  }

  function MacNext(job: Job, pc: Pc): Pc
    requires pc.Mac?
  {
    if pc.x < 31 then pc.(x := pc.x + 1)
    else if pc.k + 8 < job.lda then Mac(pc.i, pc.j, pc.k + 8, 0)
    else Store(pc.i, pc.j, 0)
  }

  /** C[i + r + j*lda] = c1, c2, c3 or c4 */
  function StoreWork(job: Job, s: State, c: nat): State
    requires job.Valid() && Sane(job, s) && c < job.cores && s.cores[c].pc.Store? && !AtBarrier(job, c, s.cores[c].pc)
  {
    var Store(i, j, r) := s.cores[c].pc;
    s.(cores := s.cores[c := s.cores[c].(pc := Store(i, j, r + 1))],
       c := s.c[At(job.lda, j, i + r) := s.cores[c].acc[r]])
  }

  /** One access to the shared arrays. */
  function Work(job: Job, s: State, c: nat): State
    requires job.Valid() && Sane(job, s) && c < job.cores && !AtBarrier(job, c, s.cores[c].pc)
  {
    match s.cores[c].pc
    case Write(_, _) => WriteWork(job, s, c)
    case Mac(_, _, _, _) => MacWork(job, s, c)
    case Store(_, _, _) => StoreWork(job, s, c)
    case Done => s
  }

  /** One step of core `c`, whenever the scheduler runs it. */
  function Step(job: Job, s: State, c: nat): State
    requires job.Valid() && Sane(job, s) && c < job.cores
  {
    var me := s.cores[c];
    if s.barrier.threads[c].mode == SenseBarrier.Outside then
      if AtBarrier(job, c, me.pc) then s.(barrier := SenseBarrier.Arrive(s.barrier, c))
      else Work(job, s, c)
    else
      var barrier := SenseBarrier.Move(s.barrier, c);
      if barrier.threads[c].mode == SenseBarrier.Outside then
        s.(barrier := barrier, cores := s.cores[c := Core(AfterBarrier(job, c, me.pc), CLEARED)])
      else
        s.(barrier := barrier)
  }

  ghost predicate Init(job: Job, s: State)
    requires job.Valid()
  {
    && |s.cores| == |s.barrier.threads| == job.cores && |s.bb| == BB_SIZE && |s.c| == job.lda * job.lda
    && (forall d :: 0 <= d < job.cores ==> s.cores[d] == Core(StartPc(job, d), CLEARED))
    && (forall d :: 0 <= d < job.cores ==> s.barrier.threads[d] == SenseBarrier.Thread(SenseBarrier.Outside, false, 0))
    && (forall p :: 0 <= p < BB_SIZE ==> s.bb[p] == None)
    && s.barrier.count == 0 && !s.barrier.sense && !s.fault
  }

  // ----- block arithmetic --------------------------------------------------

  lemma Blocks(job: Job, core: nat)
    requires job.Valid() && core < job.cores
    ensures job.Hi(core) <= job.lda && job.Hi(core) == job.Lo(core) + job.Rows()
    ensures job.lda > 0 ==> job.Rows() > 0 && job.lda >= 8
  {
    assert job.Rows() * job.cores == job.lda;
    assert (core + 1) * job.Rows() <= job.cores * job.Rows();
  }

  lemma BlocksDisjoint(job: Job, core: nat, core': nat, row: nat)
    requires job.cores > 0
    ensures job.Lo(core) <= row < job.Hi(core) && job.Lo(core') <= row < job.Hi(core') ==> core == core'
  {
    MulMonotone(core + 1, core', job.Rows());
    MulMonotone(core' + 1, core, job.Rows());
  }

  lemma Owner(job: Job, row: nat) returns (core: nat)
    requires job.Valid() && row < job.lda
    ensures core < job.cores && job.Lo(core) <= row < job.Hi(core)
  {
    assert job.Rows() * job.cores == job.lda;
    assert job.Rows() > 0;
    core := row / job.Rows();
    assert core * job.Rows() <= row < (core + 1) * job.Rows();
    MulMonotone(job.cores, core, job.Rows());
  }

  // ----- the invariant -----------------------------------------------------

  /** The number of barriers behind this position. */
  function Episode(job: Job, core: nat, pc: Pc): nat
    requires job.cores > 0 && InLoops(job, core, pc)
  {
    match pc
    case Write(k, i) => k
    case Mac(i, j, k, x) => job.lda + RowTurns(job, i / 4) + (j - job.Lo(core))
    case Store(i, j, r) => job.lda + RowTurns(job, i / 4) + (j - job.Lo(core))
    case Done => Barriers(job)
  }

  /** The number of barriers of a whole run. */
  function Barriers(job: Job): nat
    requires job.cores > 0
  {
    job.lda + RowTurns(job, job.lda / 4)
  }

  /** The turns of the row loop in the first `q` turns of the loop around it. */
  function RowTurns(job: Job, q: nat): nat
    requires job.cores > 0
  {
    if q == 0 then 0 else RowTurns(job, q - 1) + job.Rows()
  }

  lemma {:induction false} RowTurnsGrow(job: Job, q: nat, p: nat)
    requires job.cores > 0 && q <= p
    ensures RowTurns(job, q) <= RowTurns(job, p)
  {
    if q < p {
      RowTurnsGrow(job, q, p - 1);
    }
  }

  /** One barrier per column of the transpose and one per four results. */
  lemma {:induction false} RowTurnsAre(job: Job, q: nat)
    requires job.cores > 0
    ensures RowTurns(job, q) == q * job.Rows()
  {
    if q > 0 {
      RowTurnsAre(job, q - 1);
      assert q * job.Rows() == (q - 1) * job.Rows() + job.Rows();
    }
  }

  lemma EpisodeAdvances(job: Job, core: nat, pc: Pc)
    requires job.Valid() && core < job.cores && InLoops(job, core, pc) && AtBarrier(job, core, pc)
    ensures InLoops(job, core, AfterBarrier(job, core, pc))
    ensures Episode(job, core, AfterBarrier(job, core, pc)) == Episode(job, core, pc) + 1
    ensures Episode(job, core, pc) < Barriers(job)
  {
    match pc {
      case Write(k, i) => WriteAdvances(job, core, k);
      case Store(i, j, r) => StoreAdvances(job, core, i, j);
    }
  }

  lemma WriteAdvances(job: Job, core: nat, k: nat)
    requires job.Valid() && core < job.cores && k < job.lda
    ensures var pc := Write(k, job.Hi(core));
            && InLoops(job, core, pc) && InLoops(job, core, AfterBarrier(job, core, pc))
            && Episode(job, core, AfterBarrier(job, core, pc)) == Episode(job, core, pc) + 1 <= Barriers(job)
  {
    Blocks(job, core);
  }

  lemma StoreAdvances(job: Job, core: nat, i: nat, j: nat)
    requires job.Valid() && core < job.cores && InLoops(job, core, Store(i, j, 4))
    ensures var pc := Store(i, j, 4);
            && InLoops(job, core, AfterBarrier(job, core, pc))
            && Episode(job, core, AfterBarrier(job, core, pc)) == Episode(job, core, pc) + 1 <= Barriers(job)
  {
    Blocks(job, core);
    FourColumns(i, job.lda);
    RowTurnsGrow(job, i / 4 + 1, job.lda / 4);
  }

  lemma FourColumns(i: nat, lda: nat)
    requires i % 4 == 0 && lda % 8 == 0 && i + 4 <= lda
    ensures (i + 4) / 4 == i / 4 + 1 <= lda / 4 && (i + 4) % 4 == 0
    ensures i + 4 == lda ==> i / 4 + 1 == lda / 4
    ensures i + 4 < lda ==> i + 8 <= lda
  {
  }

  /** The core has filled cell (row, col) of the transpose, one of its rows. */
  predicate Written(pc: Pc, row: nat, col: nat) {
    pc.Write? ==> col < pc.k || (col == pc.k && row < pc.i)
  }

  ghost predicate RowsWritten(job: Job, core: nat, pc: Pc, bb: seq<Option<int>>)
    requires job.Valid() && |bb| == BB_SIZE
  {
    forall row: nat, col: nat :: row < job.lda && col < job.lda && job.Lo(core) <= row < job.Hi(core) && Written(pc, row, col) ==>
      bb[At(job.lda, row, col)] == Some(job.b[At(job.lda, col, row)])
  }

  /** The core has stored C[row][col], one of its rows. */
  predicate Stored(pc: Pc, row: nat, col: nat) {
    match pc
    case Write(_, _) => false
    case Mac(i, j, _, _) => col < i || (col < i + 4 && row < j)
    case Store(i, j, r) => col < i || (col < i + 4 && row < j) || (row == j && col < i + r)
    case Done => true
  }

  ghost predicate ResultsStored(job: Job, core: nat, pc: Pc, c: seq<int>)
    requires job.Valid() && |c| == job.lda * job.lda
  {
    forall row: nat, col: nat :: row < job.lda && col < job.lda && job.Lo(core) <= row < job.Hi(core) && Stored(pc, row, col) ==>
      c[At(job.lda, row, col)] == Product(job.lda, job.a, job.b, row, col)
  }

  /** How far accumulator `r` has come at multiply-add `x` of the body. */
  function Reached(k: nat, x: nat, r: nat): nat {
    k + if r < x / 8 then 8 else if r == x / 8 then x % 8 else 0
  }

  ghost predicate AccumulatorAt(job: Job, v: int, i: nat, j: nat, n: nat)
    requires job.Valid() && i < job.lda && j < job.lda
  {
    n <= job.lda && v == Part(job.lda, job.a, job.b, j, i, 0, n)
  }

  ghost predicate AccumulatorsAt(job: Job, acc: seq<int>, i: nat, j: nat, k: nat, x: nat)
    requires job.Valid() && i + 4 <= job.lda && j < job.lda && |acc| == 4
  {
    forall r: nat :: r < 4 ==> AccumulatorAt(job, acc[r], i + r, j, Reached(k, x, r))
  }

  ghost predicate Accumulated(job: Job, core: nat, me: Core)
    requires job.Valid() && core < job.cores && job.Hi(core) <= job.lda && InLoops(job, core, me.pc) && |me.acc| == 4
  {
    match me.pc
    case Mac(i, j, k, x) => AccumulatorsAt(job, me.acc, i, j, k, x)
    case Store(i, j, _) => AccumulatorsAt(job, me.acc, i, j, job.lda, 0)
    case _ => true
  }

  ghost predicate CoreOk(job: Job, s: State, d: nat)
    requires job.Valid() && Sane(job, s) && d < job.cores
  {
    var me, t := s.cores[d], s.barrier.threads[d];
    && t.passed == Episode(job, d, me.pc)
    && (t.mode != SenseBarrier.Outside ==> AtBarrier(job, d, me.pc))
    && RowsWritten(job, d, me.pc, s.bb)
    && Accumulated(job, d, me)
    && ResultsStored(job, d, me.pc, s.c)
  }

  ghost predicate Inv(job: Job, s: State, e: nat)
    requires job.Valid()
  {
    && Sane(job, s) && SenseBarrier.Inv(s.barrier, e) && !s.fault
    && forall d :: 0 <= d < job.cores ==> CoreOk(job, s, d)
  }

  lemma InitIsInv(job: Job, s: State)
    requires job.Valid() && Init(job, s)
    ensures Inv(job, s, 0)
  {
    forall d | 0 <= d < job.cores
      ensures job.Hi(d) <= job.lda && InLoops(job, d, s.cores[d].pc)
    {
      Blocks(job, d);
    }
    SenseBarrier.InitKeeps(s.barrier);
    forall d | 0 <= d < job.cores
      ensures CoreOk(job, s, d)
    {
    }
  }

  // ----- every step keeps it -----------------------------------------------

  /** Once a core multiplies, the whole transpose is there. */
  lemma TransposeIsComplete(job: Job, s: State, e: nat, c: nat, row: nat, col: nat)
    requires job.Valid() && Inv(job, s, e) && c < job.cores && s.cores[c].pc.Mac? && row < job.lda && col < job.lda
    ensures s.bb[At(job.lda, row, col)] == Some(job.b[At(job.lda, col, row)])
  {
    var d := Owner(job, row);
    assert CoreOk(job, s, c) && CoreOk(job, s, d);
    SenseBarrier.PassedMeansArrived(s.barrier, e, c, d);
    MultiplyingIsLate(job, c, s.cores[c].pc);
    AllWritten(job, d, s.cores[d].pc, row, col);
  }

  lemma MultiplyingIsLate(job: Job, c: nat, pc: Pc)
    requires job.cores > 0 && InLoops(job, c, pc) && pc.Mac?
    ensures Episode(job, c, pc) >= job.lda
  {
  }

  lemma AllWritten(job: Job, d: nat, pc: Pc, row: nat, col: nat)
    requires job.cores > 0 && InLoops(job, d, pc) && job.Lo(d) <= row < job.Hi(d) && col < job.lda
    requires Episode(job, d, pc) + (if AtBarrier(job, d, pc) then 1 else 0) >= job.lda
    ensures Written(pc, row, col)
  {
  }

  lemma WorkKeeps(job: Job, s: State, e: nat, c: nat)
    requires job.Valid() && Inv(job, s, e) && c < job.cores
    requires s.barrier.threads[c].mode == SenseBarrier.Outside && !AtBarrier(job, c, s.cores[c].pc)
    ensures Inv(job, Work(job, s, c), e)
  {
    match s.cores[c].pc {
      case Write(k, i) => WriteKeeps(job, s, e, c);
      case Mac(i, j, k, x) => MacKeeps(job, s, e, c);
      case Store(i, j, r) => StoreKeeps(job, s, e, c);
      case Done =>
    }
  }

  lemma WriteKeeps(job: Job, s: State, e: nat, c: nat)
    requires job.Valid() && Inv(job, s, e) && c < job.cores
    requires s.cores[c].pc.Write? && s.barrier.threads[c].mode == SenseBarrier.Outside && !AtBarrier(job, c, s.cores[c].pc)
    ensures Inv(job, WriteWork(job, s, c), e)
  {
    var s' := WriteWork(job, s, c);
    var k, i := s.cores[c].pc.k, s.cores[c].pc.i;
    forall d | 0 <= d < job.cores
      ensures Sane(job, s') && CoreOk(job, s', d)
    {
      assert CoreOk(job, s, d);
      forall row: nat, col: nat | row < job.lda && col < job.lda && job.Lo(d) <= row < job.Hi(d) && Written(s'.cores[d].pc, row, col)
        ensures s'.bb[At(job.lda, row, col)] == Some(job.b[At(job.lda, col, row)])
      {
        AtInjective(job.lda, row, col, i, k);
        if d != c && row == i {
          BlocksDisjoint(job, c, d, row);
        }
      }
    }
  }

  lemma MacKeeps(job: Job, s: State, e: nat, c: nat)
    requires job.Valid() && Inv(job, s, e) && c < job.cores
    requires s.cores[c].pc.Mac? && s.barrier.threads[c].mode == SenseBarrier.Outside
    ensures Inv(job, MacWork(job, s, c), e)
  {
    var me := s.cores[c];
    TransposeIsComplete(job, s, e, c, me.pc.i + me.pc.x / 8, me.pc.k + me.pc.x % 8);
    assert CoreOk(job, s, c);
    MacKeepsOwn(job, s, c);
    var s' := MacWork(job, s, c);
    forall d | 0 <= d < job.cores
      ensures CoreOk(job, s', d)
    {
      assert CoreOk(job, s, d);
    }
  }

  lemma MacKeepsOwn(job: Job, s: State, c: nat)
    requires job.Valid() && Sane(job, s) && c < job.cores && CoreOk(job, s, c)
    requires s.barrier.threads[c].mode == SenseBarrier.Outside && s.cores[c].pc.Mac?
    requires var row, col := s.cores[c].pc.i + s.cores[c].pc.x / 8, s.cores[c].pc.k + s.cores[c].pc.x % 8;
             s.bb[At(job.lda, row, col)] == Some(job.b[At(job.lda, col, row)])
    ensures var s' := MacWork(job, s, c);
            && s' == s.(cores := s.cores[c := s'.cores[c]])
            && Sane(job, s') && CoreOk(job, s', c)
  {
    MacWorkIs(job, s, c);
    MacAccumulates(job, c, s.cores[c]);
    MacCoreOk(job, s, c, MacStep(job, c, s.cores[c]));
  }

  lemma MacCoreOk(job: Job, s: State, c: nat, me': Core)
    requires job.Valid() && Sane(job, s) && c < job.cores && CoreOk(job, s, c)
    requires s.barrier.threads[c].mode == SenseBarrier.Outside && s.cores[c].pc.Mac?
    requires me'.pc == MacNext(job, s.cores[c].pc) && |me'.acc| == 4 && InLoops(job, c, me'.pc) && Accumulated(job, c, me')
    ensures var s' := s.(cores := s.cores[c := me']);
            Sane(job, s') && CoreOk(job, s', c)
  {
    MacMovesOn(job, c, s.cores[c].pc, me'.pc);
    MacChangesNoRows(job, s, c, me'.pc);
  }

  lemma MacChangesNoRows(job: Job, s: State, c: nat, pc': Pc)
    requires job.Valid() && Sane(job, s) && c < job.cores && s.cores[c].pc.Mac? && pc' == MacNext(job, s.cores[c].pc)
    requires RowsWritten(job, c, s.cores[c].pc, s.bb) && ResultsStored(job, c, s.cores[c].pc, s.c)
    ensures RowsWritten(job, c, pc', s.bb) && ResultsStored(job, c, pc', s.c)
  {
    MacStoresNothing(job, s.cores[c].pc);
  }

  /** A core after one more multiply-add. */
  function MacStep(job: Job, c: nat, me: Core): Core
    requires job.Valid() && c < job.cores && job.Hi(c) <= job.lda && InLoops(job, c, me.pc) && me.pc.Mac? && |me.acc| == 4
  {
    var Mac(i, j, k, x) := me.pc;
    var product := job.a[At(job.lda, j, k + x % 8)] * job.b[At(job.lda, k + x % 8, i + x / 8)];
    Core(MacNext(job, me.pc), me.acc[x / 8 := me.acc[x / 8] + product])
  }

  lemma MacWorkIs(job: Job, s: State, c: nat)
    requires job.Valid() && Sane(job, s) && c < job.cores && s.cores[c].pc.Mac?
    requires var row, col := s.cores[c].pc.i + s.cores[c].pc.x / 8, s.cores[c].pc.k + s.cores[c].pc.x % 8;
             s.bb[At(job.lda, row, col)] == Some(job.b[At(job.lda, col, row)])
    ensures MacWork(job, s, c) == s.(cores := s.cores[c := MacStep(job, c, s.cores[c])])
  {
  }

  lemma MacMovesOn(job: Job, c: nat, pc: Pc, pc': Pc)
    requires job.Valid() && InLoops(job, c, pc) && pc.Mac? && pc' == MacNext(job, pc)
    ensures InLoops(job, c, pc') && Episode(job, c, pc') == Episode(job, c, pc) && !AtBarrier(job, c, pc')
    ensures Inner(job, c, pc) < Inner(job, c, pc')
  {
    if pc.k + 8 < job.lda {
      EightMore(pc.k, job.lda);
      EightMore(pc.k + 8, job.lda);
    }
  }

  lemma MacStoresNothing(job: Job, pc: Pc)
    requires pc.Mac?
    ensures forall row, col :: Stored(MacNext(job, pc), row, col) == Stored(pc, row, col)
    ensures !MacNext(job, pc).Write?
  {
  }

  lemma MacAccumulates(job: Job, c: nat, me: Core)
    requires job.Valid() && c < job.cores && job.Hi(c) <= job.lda && InLoops(job, c, me.pc) && me.pc.Mac? && |me.acc| == 4
    requires Accumulated(job, c, me)
    ensures InLoops(job, c, MacStep(job, c, me).pc) && Accumulated(job, c, MacStep(job, c, me))
  {
    var me' := MacStep(job, c, me);
    MacMovesOn(job, c, me.pc, me'.pc);
    var Mac(i, j, k, x) := me.pc;
    AccumulatorsStep(job, me.acc, me'.acc, i, j, k, x);
    if x < 31 {
      assert me'.pc == Mac(i, j, k, x + 1);
    } else if k + 8 < job.lda {
      assert me'.pc == Mac(i, j, k + 8, 0);
    } else {
      assert me'.pc == Store(i, j, 0) && k + 8 == job.lda;
    }
  }

  lemma AccumulatorsStep(job: Job, acc: seq<int>, acc': seq<int>, i: nat, j: nat, k: nat, x: nat)
    requires job.Valid() && i + 4 <= job.lda && j < job.lda && k + 8 <= job.lda && x < 32 && |acc| == 4
    requires AccumulatorsAt(job, acc, i, j, k, x)
    requires acc' == acc[x / 8 := acc[x / 8] + job.a[At(job.lda, j, k + x % 8)] * job.b[At(job.lda, k + x % 8, i + x / 8)]]
    ensures AccumulatorsAt(job, acc', i, j, k, x + 1)
    ensures x == 31 ==> AccumulatorsAt(job, acc', i, j, k + 8, 0)
  {
    forall r: nat | r < 4
      ensures AccumulatorAt(job, acc'[r], i + r, j, Reached(k, x + 1, r))
      ensures x == 31 ==> Reached(k + 8, 0, r) == Reached(k, 32, r)
    {
      ReachedStep(k, x, r);
      assert AccumulatorAt(job, acc[r], i + r, j, Reached(k, x, r));
      if r == x / 8 {
        AccumulatorStep(job, acc[r], i + r, j, k + x % 8);
      }
    }
  }

  lemma AccumulatorStep(job: Job, v: int, i: nat, j: nat, n: nat)
    requires job.Valid() && i < job.lda && j < job.lda && n < job.lda
    requires AccumulatorAt(job, v, i, j, n)
    ensures AccumulatorAt(job, v + job.a[At(job.lda, j, n)] * job.b[At(job.lda, n, i)], i, j, n + 1)
  {
  }

  lemma ReachedStep(k: nat, x: nat, r: nat)
    requires x < 32 && r < 4
    ensures Reached(k, x, r) <= k + 8 && Reached(k, 32, r) == k + 8 == Reached(k + 8, 0, r)
    ensures if r == x / 8 then Reached(k, x, r) == k + x % 8 && Reached(k, x + 1, r) == k + x % 8 + 1
            else Reached(k, x + 1, r) == Reached(k, x, r)
  {
  }

  lemma StoreKeeps(job: Job, s: State, e: nat, c: nat)
    requires job.Valid() && Inv(job, s, e) && c < job.cores
    requires s.cores[c].pc.Store? && !AtBarrier(job, c, s.cores[c].pc) && s.barrier.threads[c].mode == SenseBarrier.Outside
    ensures Inv(job, StoreWork(job, s, c), e)
  {
    var s' := StoreWork(job, s, c);
    assert CoreOk(job, s, c);
    assert Sane(job, s');
    forall d | 0 <= d < job.cores
      ensures CoreOk(job, s', d)
    {
      assert CoreOk(job, s, d);
      StoreKeepsResults(job, s, c, d);
      StoreKeepsRest(job, s, c, d);
    }
  }

  lemma StoreKeepsRest(job: Job, s: State, c: nat, d: nat)
    requires job.Valid() && Sane(job, s) && c < job.cores && d < job.cores
    requires s.cores[c].pc.Store? && !AtBarrier(job, c, s.cores[c].pc) && s.barrier.threads[c].mode == SenseBarrier.Outside
    requires CoreOk(job, s, d)
    ensures var s' := StoreWork(job, s, c);
            var me, t := s'.cores[d], s'.barrier.threads[d];
            && Sane(job, s')
            && t.passed == Episode(job, d, me.pc)
            && (t.mode != SenseBarrier.Outside ==> AtBarrier(job, d, me.pc))
            && RowsWritten(job, d, me.pc, s'.bb)
            && Accumulated(job, d, me)
  {
  }

  /** A core stores whole inner products. */
  lemma StoredIsProduct(job: Job, s: State, c: nat)
    requires job.Valid() && Sane(job, s) && c < job.cores
    requires s.cores[c].pc.Store? && !AtBarrier(job, c, s.cores[c].pc) && Accumulated(job, c, s.cores[c])
    ensures var pc := s.cores[c].pc;
            pc.r < 4 && s.cores[c].acc[pc.r] == Product(job.lda, job.a, job.b, pc.j, pc.i + pc.r)
  {
    var i, j, r := s.cores[c].pc.i, s.cores[c].pc.j, s.cores[c].pc.r;
    assert Reached(job.lda, 0, r) == job.lda;
    assert AccumulatorAt(job, s.cores[c].acc[r], i + r, j, Reached(job.lda, 0, r));
  }

  lemma StoreKeepsResults(job: Job, s: State, c: nat, d: nat)
    requires job.Valid() && Sane(job, s) && c < job.cores && d < job.cores
    requires s.cores[c].pc.Store? && !AtBarrier(job, c, s.cores[c].pc)
    requires Accumulated(job, c, s.cores[c]) && ResultsStored(job, d, s.cores[d].pc, s.c)
    ensures ResultsStored(job, d, StoreWork(job, s, c).cores[d].pc, StoreWork(job, s, c).c)
  {
    StoredIsProduct(job, s, c);
    var s' := StoreWork(job, s, c);
    forall row: nat, col: nat | row < job.lda && col < job.lda && job.Lo(d) <= row < job.Hi(d) && Stored(s'.cores[d].pc, row, col)
      ensures s'.c[At(job.lda, row, col)] == Product(job.lda, job.a, job.b, row, col)
    {
      StoreAt(job, s, c, d, row, col);
    }
  }

  lemma StoreAt(job: Job, s: State, c: nat, d: nat, row: nat, col: nat)
    requires job.Valid() && Sane(job, s) && c < job.cores && d < job.cores && row < job.lda && col < job.lda
    requires s.cores[c].pc.Store? && !AtBarrier(job, c, s.cores[c].pc)
    requires Stored(StoreWork(job, s, c).cores[d].pc, row, col)
    ensures var pc := s.cores[c].pc;
            if row == pc.j && col == pc.i + pc.r then StoreWork(job, s, c).c[At(job.lda, row, col)] == s.cores[c].acc[pc.r]
            else Stored(s.cores[d].pc, row, col) && StoreWork(job, s, c).c[At(job.lda, row, col)] == s.c[At(job.lda, row, col)]
  {
    AtInjective(job.lda, row, col, s.cores[c].pc.j, s.cores[c].pc.i + s.cores[c].pc.r);
  }

  lemma BarrierKeeps(job: Job, s: State, e: nat, c: nat)
    requires job.Valid() && Inv(job, s, e) && c < job.cores
    requires s.barrier.threads[c].mode != SenseBarrier.Outside
    ensures Inv(job, Step(job, s, c), if s.barrier.threads[c].mode == SenseBarrier.Releasing then e + 1 else e)
  {
    var s' := Step(job, s, c);
    SenseBarrier.MoveKeeps(s.barrier, e, c);
    assert CoreOk(job, s, c);
    BarrierKeepsOwn(job, s, e, c);
    forall d | 0 <= d < job.cores
      ensures CoreOk(job, s', d)
    {
      assert CoreOk(job, s, d);
    }
  }

  lemma BarrierKeepsOwn(job: Job, s: State, e: nat, c: nat)
    requires job.Valid() && Sane(job, s) && c < job.cores && CoreOk(job, s, c)
    requires s.barrier.threads[c].mode != SenseBarrier.Outside
    ensures Sane(job, Step(job, s, c)) && CoreOk(job, Step(job, s, c), c)
  {
    var pc := s.cores[c].pc;
    Blocks(job, c);
    EpisodeAdvances(job, c, pc);
    forall row: nat, col: nat | row < job.lda && col < job.lda && job.Lo(c) <= row < job.Hi(c)
      ensures Written(AfterBarrier(job, c, pc), row, col) ==> Written(pc, row, col)
      ensures Stored(AfterBarrier(job, c, pc), row, col) ==> Stored(pc, row, col)
    {
      BarrierAddsNothing(job, c, pc, row, col);
    }
  }

  lemma BarrierAddsNothing(job: Job, c: nat, pc: Pc, row: nat, col: nat)
    requires job.Valid() && c < job.cores && InLoops(job, c, pc) && AtBarrier(job, c, pc)
    requires row < job.lda && col < job.lda && job.Lo(c) <= row < job.Hi(c)
    ensures Written(AfterBarrier(job, c, pc), row, col) ==> Written(pc, row, col)
    ensures Stored(AfterBarrier(job, c, pc), row, col) ==> Stored(pc, row, col)
  {
  }

  lemma StepKeeps(job: Job, s: State, e: nat, c: nat) returns (e': nat)
    requires job.Valid() && Inv(job, s, e) && c < job.cores
    ensures Inv(job, Step(job, s, c), e')
  {
    e' := e;
    if s.barrier.threads[c].mode != SenseBarrier.Outside {
      BarrierKeeps(job, s, e, c);
      if s.barrier.threads[c].mode == SenseBarrier.Releasing {
        e' := e + 1;
      }
    } else if AtBarrier(job, c, s.cores[c].pc) {
      SenseBarrier.ArriveKeeps(s.barrier, e, c);
      var s' := Step(job, s, c);
      forall d | 0 <= d < job.cores
        ensures CoreOk(job, s', d)
      {
        assert CoreOk(job, s, d);
      }
    } else {
      WorkKeeps(job, s, e, c);
    }
  }

  // ----- all schedules -----------------------------------------------------

  ghost predicate IsSchedule(job: Job, schedule: seq<nat>) {
    forall i :: 0 <= i < |schedule| ==> schedule[i] < job.cores
  }

  /** The state after the scheduler has run the cores in this order. */
  ghost function Run(job: Job, s: State, schedule: seq<nat>): State
    requires job.Valid() && IsSchedule(job, schedule)
  {
    if schedule == [] then s
    else
      var n := |schedule| - 1;
      var before := Run(job, s, schedule[..n]);
      if Sane(job, before) then Step(job, before, schedule[n]) else before
  }

  lemma {:induction false} EveryRunKeepsInv(job: Job, s: State, schedule: seq<nat>) returns (e: nat)
    requires job.Valid() && Init(job, s) && IsSchedule(job, schedule)
    ensures Inv(job, Run(job, s, schedule), e)
  {
    if schedule == [] {
      InitIsInv(job, s);
      e := 0;
    } else {
      var n := |schedule| - 1;
      var e0 := EveryRunKeepsInv(job, s, schedule[..n]);
      e := StepKeeps(job, Run(job, s, schedule[..n]), e0, schedule[n]);
    }
  }

  /** No schedule lets a core read a cell of the transpose before it is written. */
  lemma NoUnwrittenRead(job: Job, s: State, schedule: seq<nat>)
    requires job.Valid() && Init(job, s) && IsSchedule(job, schedule)
    ensures !Run(job, s, schedule).fault
  {
    var e := EveryRunKeepsInv(job, s, schedule);
  }

  ghost predicate Finished(job: Job, s: State)
    requires job.Valid()
  {
    |s.cores| == job.cores && forall d :: 0 <= d < job.cores ==> s.cores[d].pc == Done
  }

  /** When all cores are done, C is the product, whatever it held before, and
      every core has passed the same number of barriers. */
  lemma FinishedMeansProduct(job: Job, s: State, schedule: seq<nat>)
    requires job.Valid() && Init(job, s) && IsSchedule(job, schedule)
    requires Finished(job, Run(job, s, schedule))
    ensures var r := Run(job, s, schedule);
            && |r.c| == job.lda * job.lda && |r.barrier.threads| == job.cores
            && (forall j: nat, i: nat :: j < job.lda && i < job.lda ==>
                  r.c[At(job.lda, j, i)] == Product(job.lda, job.a, job.b, j, i))
            && (forall d :: 0 <= d < job.cores ==> r.barrier.threads[d].passed == Barriers(job))
  {
    var e := EveryRunKeepsInv(job, s, schedule);
    var r := Run(job, s, schedule);
    forall j: nat, i: nat | j < job.lda && i < job.lda
      ensures r.c[At(job.lda, j, i)] == Product(job.lda, job.a, job.b, j, i)
    {
      var d := Owner(job, j);
      assert CoreOk(job, r, d);
    }
    forall d | 0 <= d < job.cores
      ensures r.barrier.threads[d].passed == Barriers(job)
    {
      assert CoreOk(job, r, d);
    }
  }

  /** As long as some core is not done, some core can make a step. */
  lemma NoDeadlock(job: Job, s: State, schedule: seq<nat>) returns (c: nat)
    requires job.Valid() && Init(job, s) && IsSchedule(job, schedule)
    requires !Finished(job, Run(job, s, schedule))
    ensures c < job.cores && Sane(job, Run(job, s, schedule))
    ensures Step(job, Run(job, s, schedule), c) != Run(job, s, schedule)
  {
    var e := EveryRunKeepsInv(job, s, schedule);
    c := SomeCoreMoves(job, Run(job, s, schedule), e);
  }

  lemma SomeCoreMoves(job: Job, s: State, e: nat) returns (c: nat)
    requires job.Valid() && Inv(job, s, e) && !Finished(job, s)
    ensures c < job.cores && Step(job, s, c) != s
  {
    if d :| 0 <= d < job.cores && s.barrier.threads[d].mode == SenseBarrier.Outside && s.cores[d].pc != Done {
      c := d;
      OutsideMoves(job, s, e, c);
    } else {
      var waiting :| 0 <= waiting < job.cores && s.cores[waiting].pc != Done;
      assert CoreOk(job, s, waiting);
      EpisodeAdvances(job, waiting, s.cores[waiting].pc);
      if d :| 0 <= d < job.cores && s.cores[d].pc == Done {
        assert CoreOk(job, s, d);
        c := waiting;
        LateSpinnerMoves(job, s, e, c, d);
      } else {
        c := SenseBarrier.SomeoneMoves(s.barrier, e);
      }
    }
  }

  lemma OutsideMoves(job: Job, s: State, e: nat, c: nat)
    requires job.Valid() && Inv(job, s, e) && c < job.cores
    requires s.barrier.threads[c].mode == SenseBarrier.Outside && s.cores[c].pc != Done
    ensures Step(job, s, c) != s
  {
    assert CoreOk(job, s, c);
    if AtBarrier(job, c, s.cores[c].pc) {
      assert Step(job, s, c).barrier.threads[c].mode != SenseBarrier.Outside;
    } else {
      WorkMoves(job, s, e, c);
    }
  }

  lemma WorkMoves(job: Job, s: State, e: nat, c: nat)
    requires job.Valid() && Inv(job, s, e) && c < job.cores && CoreOk(job, s, c)
    requires s.barrier.threads[c].mode == SenseBarrier.Outside && s.cores[c].pc != Done && !AtBarrier(job, c, s.cores[c].pc)
    ensures Work(job, s, c).cores[c].pc != s.cores[c].pc
  {
    var pc := s.cores[c].pc;
    match pc {
      case Write(k, i) => assert Work(job, s, c).cores[c].pc == Write(k, i + 1);
      case Mac(i, j, k, x) =>
        TransposeIsComplete(job, s, e, c, i + x / 8, k + x % 8);
        MacMoves(job, s, c);
      case Store(i, j, r) => assert Work(job, s, c).cores[c].pc == Store(i, j, r + 1);
    }
  }

  lemma MacMoves(job: Job, s: State, c: nat)
    requires job.Valid() && Sane(job, s) && c < job.cores && s.cores[c].pc.Mac?
    requires var row, col := s.cores[c].pc.i + s.cores[c].pc.x / 8, s.cores[c].pc.k + s.cores[c].pc.x % 8;
             s.bb[At(job.lda, row, col)] == Some(job.b[At(job.lda, col, row)])
    ensures MacWork(job, s, c).cores[c].pc != s.cores[c].pc
  {
    MacWorkIs(job, s, c);
  }

  /** A core still inside its last barrier has been released if another is done. */
  lemma LateSpinnerMoves(job: Job, s: State, e: nat, c: nat, d: nat)
    requires job.Valid() && Inv(job, s, e) && c < job.cores && d < job.cores
    requires s.barrier.threads[c].mode != SenseBarrier.Outside
    requires s.barrier.threads[c].passed < s.barrier.threads[d].passed
    ensures Step(job, s, c) != s
  {
    assert SenseBarrier.ThreadOk(s.barrier.threads[c], e) && SenseBarrier.ThreadOk(s.barrier.threads[d], e);
    assert SenseBarrier.Move(s.barrier, c).threads[c] != s.barrier.threads[c];
  }

  // ----- bounded work ------------------------------------------------------

  /** Where a core stands between two barriers. */
  function Inner(job: Job, core: nat, pc: Pc): nat
    requires job.cores > 0 && InLoops(job, core, pc)
  {
    match pc
    case Write(k, i) => i - job.Lo(core)
    case Mac(i, j, k, x) => 4 * k + x
    case Store(i, j, r) => 4 * job.lda + r
    case Done => 0
  }

  function ModeRank(m: SenseBarrier.Mode): nat {
    match m
    case Outside => 0
    case Spinning => 1
    case Resetting => 1
    case Releasing => 2
  }

  /** More than the steps between two barriers. */
  function Stride(job: Job): nat {
    4 * job.lda + 8
  }

  ghost function Key(job: Job, s: State, d: nat): nat
    requires job.Valid() && Sane(job, s) && d < job.cores
  {
    Times(s.barrier.threads[d].passed, Stride(job)) + Inner(job, d, s.cores[d].pc) + ModeRank(s.barrier.threads[d].mode)
  }

  function Times(x: nat, y: nat): nat {
    x * y
  }

  lemma TimesSteps(x: nat, x': nat, y: nat)
    ensures Times(x + 1, y) == Times(x, y) + y
    ensures x <= x' ==> Times(x, y) <= Times(x', y)
  {
    MulMonotone(x, x', y);
  }

  ghost function Keys(job: Job, s: State, n: nat): nat
    requires job.Valid() && Sane(job, s) && n <= job.cores
  {
    if n == 0 then 0 else Keys(job, s, n - 1) + Key(job, s, n - 1)
  }

  lemma {:induction false} KeysGrow(job: Job, s: State, s': State, c: nat, n: nat)
    requires job.Valid() && Sane(job, s) && Sane(job, s') && n <= job.cores && c < job.cores
    requires forall d :: 0 <= d < job.cores && d != c ==>
               s'.cores[d] == s.cores[d] && s'.barrier.threads[d] == s.barrier.threads[d]
    requires Key(job, s, c) < Key(job, s', c)
    ensures Keys(job, s, n) + (if c < n then 1 else 0) <= Keys(job, s', n)
  {
    if n > 0 {
      KeysGrow(job, s, s', c, n - 1);
    }
  }

  lemma InnerIsSmall(job: Job, c: nat, pc: Pc)
    requires job.Valid() && c < job.cores && InLoops(job, c, pc)
    ensures Inner(job, c, pc) + 2 < Stride(job)
  {
    Blocks(job, c);
  }

  lemma StepRaisesKey(job: Job, s: State, e: nat, c: nat)
    requires job.Valid() && Inv(job, s, e) && c < job.cores && Step(job, s, c) != s
    ensures Sane(job, Step(job, s, c)) && Key(job, s, c) < Key(job, Step(job, s, c), c)
  {
    var e' := StepKeeps(job, s, e, c);
    assert CoreOk(job, s, c);
    if s.barrier.threads[c].mode == SenseBarrier.Outside {
      if !AtBarrier(job, c, s.cores[c].pc) {
        WorkAdvances(job, s, e, c);
      }
    } else {
      var t := s.barrier.threads[c];
      MoveAdvances(s.barrier, c);
      InnerIsSmall(job, c, s.cores[c].pc);
      TimesSteps(t.passed, t.passed, Stride(job));
    }
  }

  lemma MoveAdvances(b: SenseBarrier.Barrier, c: nat)
    requires c < |b.threads| && b.threads[c].mode != SenseBarrier.Outside
    ensures var t, t' := b.threads[c], SenseBarrier.Move(b, c).threads[c];
            if t'.mode == SenseBarrier.Outside then t'.passed == t.passed + 1
            else t'.passed == t.passed && (SenseBarrier.Move(b, c) == b || ModeRank(t.mode) < ModeRank(t'.mode))
  {
  }

  lemma WorkAdvances(job: Job, s: State, e: nat, c: nat)
    requires job.Valid() && Inv(job, s, e) && c < job.cores
    requires s.barrier.threads[c].mode == SenseBarrier.Outside && !AtBarrier(job, c, s.cores[c].pc)
    ensures var s' := Work(job, s, c);
            && s'.barrier == s.barrier && InLoops(job, c, s'.cores[c].pc)
            && (s' == s || Inner(job, c, s.cores[c].pc) < Inner(job, c, s'.cores[c].pc))
  {
    assert CoreOk(job, s, c);
    match s.cores[c].pc {
      case Write(k, i) => assert Work(job, s, c).cores[c].pc == Write(k, i + 1);
      case Mac(i, j, k, x) =>
        TransposeIsComplete(job, s, e, c, i + x / 8, k + x % 8);
        MacAdvances(job, s, c);
      case Store(i, j, r) => assert Work(job, s, c).cores[c].pc == Store(i, j, r + 1);
      case Done => assert Work(job, s, c) == s;
    }
  }

  lemma MacAdvances(job: Job, s: State, c: nat)
    requires job.Valid() && Sane(job, s) && c < job.cores && s.cores[c].pc.Mac?
    requires var row, col := s.cores[c].pc.i + s.cores[c].pc.x / 8, s.cores[c].pc.k + s.cores[c].pc.x % 8;
             s.bb[At(job.lda, row, col)] == Some(job.b[At(job.lda, col, row)])
    ensures var s' := MacWork(job, s, c);
            && s'.barrier == s.barrier && InLoops(job, c, s'.cores[c].pc)
            && Inner(job, c, s.cores[c].pc) < Inner(job, c, s'.cores[c].pc)
  {
    MacWorkIs(job, s, c);
    MacMovesOn(job, c, s.cores[c].pc, MacNext(job, s.cores[c].pc));
  }

  lemma KeyIsBounded(job: Job, s: State, e: nat, d: nat)
    requires job.Valid() && Inv(job, s, e) && d < job.cores
    ensures Key(job, s, d) <= Times(Barriers(job) + 1, Stride(job))
  {
    assert CoreOk(job, s, d);
    InnerIsSmall(job, d, s.cores[d].pc);
    EpisodeIsBounded(job, d, s.cores[d].pc);
    TimesSteps(s.barrier.threads[d].passed + 1, Barriers(job) + 1, Stride(job));
    TimesSteps(s.barrier.threads[d].passed, 0, Stride(job));
  }

  lemma {:induction false} KeysAreBounded(job: Job, s: State, e: nat, n: nat)
    requires job.Valid() && Inv(job, s, e) && n <= job.cores
    ensures Keys(job, s, n) <= Times(n, Times(Barriers(job) + 1, Stride(job)))
  {
    if n > 0 {
      KeysAreBounded(job, s, e, n - 1);
      KeyIsBounded(job, s, e, n - 1);
      TimesSteps(n - 1, 0, Times(Barriers(job) + 1, Stride(job)));
    }
  }

  lemma EpisodeIsBounded(job: Job, c: nat, pc: Pc)
    requires job.Valid() && c < job.cores && InLoops(job, c, pc)
    ensures Episode(job, c, pc) <= Barriers(job)
  {
    match pc {
      case Write(k, i) =>
      case Mac(i, j, k, x) => StoreAdvances(job, c, i, j);
      case Store(i, j, r) => StoreAdvances(job, c, i, j);
      case Done =>
    }
  }

  /** The number of steps of the schedule that changed something. */
  ghost function Effective(job: Job, s: State, schedule: seq<nat>): nat
    requires job.Valid() && IsSchedule(job, schedule)
  {
    if schedule == [] then 0
    else
      var n := |schedule| - 1;
      Effective(job, s, schedule[..n]) + if Run(job, s, schedule) != Run(job, s, schedule[..n]) then 1 else 0
  }

  lemma {:induction false} EffectiveIsKeys(job: Job, s: State, schedule: seq<nat>)
    requires job.Valid() && Init(job, s) && IsSchedule(job, schedule)
    ensures Sane(job, Run(job, s, schedule)) && Effective(job, s, schedule) <= Keys(job, Run(job, s, schedule), job.cores)
  {
    if schedule == [] {
      InitIsInv(job, s);
    } else {
      var n := |schedule| - 1;
      EffectiveIsKeys(job, s, schedule[..n]);
      var before := Run(job, s, schedule[..n]);
      var e := EveryRunKeepsInv(job, s, schedule[..n]);
      StepRaisesKeys(job, before, e, schedule[n]);
    }
  }

  lemma StepRaisesKeys(job: Job, s: State, e: nat, c: nat)
    requires job.Valid() && Inv(job, s, e) && c < job.cores
    ensures Sane(job, Step(job, s, c))
    ensures Keys(job, s, job.cores) + (if Step(job, s, c) != s then 1 else 0) <= Keys(job, Step(job, s, c), job.cores)
  {
    if Step(job, s, c) != s {
      StepRaisesKey(job, s, e, c);
      StepIsLocal(job, s, c);
      KeysGrow(job, s, Step(job, s, c), c, job.cores);
    }
  }

  lemma StepIsLocal(job: Job, s: State, c: nat)
    requires job.Valid() && Sane(job, s) && c < job.cores
    ensures var s' := Step(job, s, c);
            && |s'.cores| == |s'.barrier.threads| == job.cores
            && forall d :: 0 <= d < job.cores && d != c ==>
                 s'.cores[d] == s.cores[d] && s'.barrier.threads[d] == s.barrier.threads[d]
  {
  }

  /** However long the schedule, only so many of its steps do anything. */
  lemma WorkIsBounded(job: Job, s: State, schedule: seq<nat>)
    requires job.Valid() && Init(job, s) && IsSchedule(job, schedule)
    ensures Effective(job, s, schedule) <= Times(job.cores, Times(Barriers(job) + 1, Stride(job)))
  {
    EffectiveIsKeys(job, s, schedule);
    var e := EveryRunKeepsInv(job, s, schedule);
    KeysAreBounded(job, Run(job, s, schedule), e, job.cores);
  }

  // ----- fair schedules ----------------------------------------------------

  /** The scheduler runs every core again and again. */
  ghost predicate Fair(job: Job, schedule: nat -> nat) {
    && (forall n: nat :: schedule(n) < job.cores)
    && forall c: nat, n: nat :: c < job.cores ==> RunsAgain(schedule, c, n)
  }

  ghost predicate RunsAgain(schedule: nat -> nat, c: nat, n: nat) {
    exists m: nat :: n <= m && schedule(m) == c
  }

  ghost function First(job: Job, schedule: nat -> nat, n: nat): (prefix: seq<nat>)
    requires Fair(job, schedule)
    ensures |prefix| == n && IsSchedule(job, prefix)
  {
    if n == 0 then [] else First(job, schedule, n - 1) + [schedule(n - 1)]
  }

  /** One step more. */
  lemma FirstStep(job: Job, s: State, schedule: nat -> nat, n: nat)
    requires job.Valid() && Init(job, s) && Fair(job, schedule)
    ensures var r, r' := Run(job, s, First(job, schedule, n)), Run(job, s, First(job, schedule, n + 1));
            Sane(job, r) && r' == Step(job, r, schedule(n))
  {
    var prefix := First(job, schedule, n);
    assert First(job, schedule, n + 1)[..n] == prefix;
    var e := EveryRunKeepsInv(job, s, prefix);
  }

  lemma WorkStep(job: Job, s: State, schedule: nat -> nat, n: nat)
    requires job.Valid() && Fair(job, schedule)
    ensures var prefix, more := First(job, schedule, n), First(job, schedule, n + 1);
            Effective(job, s, more) == Effective(job, s, prefix) + if Run(job, s, more) != Run(job, s, prefix) then 1 else 0
  {
    assert First(job, schedule, n + 1)[..n] == First(job, schedule, n);
  }

  ghost function States(job: Job, s: State, schedule: nat -> nat): nat -> State
    requires job.Valid() && Fair(job, schedule)
  {
    (n: nat) => Run(job, s, First(job, schedule, n))
  }

  ghost function Works(job: Job, s: State, schedule: nat -> nat): nat -> nat
    requires job.Valid() && Fair(job, schedule)
  {
    (n: nat) => Effective(job, s, First(job, schedule, n))
  }

  /** `e` counts the changes of `r`. */
  ghost predicate Counted(r: nat -> State, e: nat -> nat, k: nat) {
    e(k + 1) == e(k) + if r(k + 1) != r(k) then 1 else 0
  }

  /** No step takes work back, and without work nothing changes. */
  lemma {:induction false} NoWorkNoChange(r: nat -> State, e: nat -> nat, n: nat, m: nat)
    requires n <= m && forall k: nat :: Counted(r, e, k)
    ensures e(n) <= e(m) && (e(n) == e(m) ==> r(n) == r(m))
    decreases m
  {
    if n < m {
      NoWorkNoChange(r, e, n, m - 1);
      assert Counted(r, e, m - 1);
    }
  }

  /** Steps without an effect leave the state as it is. */
  lemma IdleSteps(job: Job, s: State, schedule: nat -> nat, n: nat, m: nat)
    requires job.Valid() && Fair(job, schedule) && n <= m
    ensures var r, e := States(job, s, schedule), Works(job, s, schedule);
            e(n) <= e(m) && (e(n) == e(m) ==> r(n) == r(m))
  {
    forall k: nat
      ensures Counted(States(job, s, schedule), Works(job, s, schedule), k)
    {
      WorkStep(job, s, schedule, k);
    }
    NoWorkNoChange(States(job, s, schedule), Works(job, s, schedule), n, m);
  }

  /** An effective step is counted. */
  lemma MoveCounts(job: Job, s: State, schedule: nat -> nat, n: nat)
    requires job.Valid() && Init(job, s) && Fair(job, schedule)
    requires Sane(job, States(job, s, schedule)(n))
    requires Step(job, States(job, s, schedule)(n), schedule(n)) != States(job, s, schedule)(n)
    ensures Works(job, s, schedule)(n) < Works(job, s, schedule)(n + 1)
  {
    FirstStep(job, s, schedule, n);
    WorkStep(job, s, schedule, n);
  }

  /** An unfinished run goes on: the core that can move gets its turn. */
  lemma SomeoneWillMove(job: Job, s: State, schedule: nat -> nat, n: nat) returns (m: nat)
    requires job.Valid() && Init(job, s) && Fair(job, schedule) && !Finished(job, Run(job, s, First(job, schedule, n)))
    ensures Works(job, s, schedule)(n) < Works(job, s, schedule)(m)
  {
    var c := NoDeadlock(job, s, First(job, schedule, n));
    assert RunsAgain(schedule, c, n);
    var turn: nat :| n <= turn && schedule(turn) == c;
    IdleSteps(job, s, schedule, n, turn);
    if Works(job, s, schedule)(n) < Works(job, s, schedule)(turn) {
      m := turn;
    } else {
      MoveCounts(job, s, schedule, turn);
      m := turn + 1;
    }
  }

  lemma {:induction false} FinishesOrWorks(job: Job, s: State, schedule: nat -> nat, k: nat) returns (n: nat)
    requires job.Valid() && Init(job, s) && Fair(job, schedule)
    ensures Finished(job, Run(job, s, First(job, schedule, n))) || k <= Effective(job, s, First(job, schedule, n))
  {
    n := 0;
    if k > 0 {
      n := FinishesOrWorks(job, s, schedule, k - 1);
      if !Finished(job, Run(job, s, First(job, schedule, n))) {
        n := SomeoneWillMove(job, s, schedule, n);
      }
    }
  }

  /** Every fair schedule finishes, with the product in C. */
  lemma FairRunsFinish(job: Job, s: State, schedule: nat -> nat) returns (n: nat)
    requires job.Valid() && Init(job, s) && Fair(job, schedule)
    ensures var r := Run(job, s, First(job, schedule, n));
            && Finished(job, r) && |r.c| == job.lda * job.lda
            && forall j: nat, i: nat :: j < job.lda && i < job.lda ==>
                 r.c[At(job.lda, j, i)] == Product(job.lda, job.a, job.b, j, i)
  {
    n := FinishesOrWorks(job, s, schedule, Times(job.cores, Times(Barriers(job) + 1, Stride(job))) + 1);
    WorkIsBounded(job, s, First(job, schedule, n));
    FinishedMeansProduct(job, s, First(job, schedule, n));
  }
}
