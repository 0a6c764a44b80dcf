/** The sense-reversing barrier of the benchmark library.

A thread flips its own sense and counts itself in with one atomic step. The last
one to arrive resets the count and only then publishes the new sense; the others
spin on it. A thread can run ahead into the next barrier while others have not
yet noticed that they were released. */
module SenseBarrier {
  import opened Collections

  datatype Mode = Outside | Spinning | Resetting | Releasing

  /** `passed` counts the barriers a thread has left; the program never reads it. */
  datatype Thread = Thread(mode: Mode, threadSense: bool, passed: nat)

  datatype Barrier = Barrier(threads: seq<Thread>, count: int, sense: bool)

  /** Flipping the thread's sense and the fetch-and-add. */
  function Arrive(b: Barrier, t: nat): Barrier
    requires t < |b.threads| && b.threads[t].mode == Outside
  {
    var me := b.threads[t];
    var mode := if b.count == |b.threads| - 1 then Resetting else Spinning;
    b.(threads := b.threads[t := me.(mode := mode, threadSense := !me.threadSense)], count := b.count + 1)
  }

  function Leave(me: Thread): Thread {
    me.(mode := Outside, passed := me.passed + 1)
  }

  /** One step of a thread that is inside. */
  function Move(b: Barrier, t: nat): Barrier
    requires t < |b.threads| && b.threads[t].mode != Outside
  {
    var me := b.threads[t];
    match me.mode
    case Resetting => b.(threads := b.threads[t := me.(mode := Releasing)], count := 0)
    case Releasing => b.(threads := b.threads[t := Leave(me)], sense := me.threadSense)
    case Spinning => if b.sense == me.threadSense then b.(threads := b.threads[t := Leave(me)]) else b
  }

  function Arrivals(t: Thread): nat {
    t.passed + if t.mode == Outside then 0 else 1
  }

  predicate Odd(n: nat) {
    n % 2 == 1
  }

  /** The threads that wait for the end of episode `e`. */
  function Waiting(threads: seq<Thread>, e: nat): set<nat> {
    set t: nat | t < |threads| && threads[t].mode != Outside && threads[t].passed == e
  }

  predicate ThreadOk(t: Thread, e: nat) {
    && t.threadSense == Odd(Arrivals(t))
    && (t.passed == e || (t.mode == Spinning && t.passed + 1 == e))
  }

  predicate Finishing(t: Thread) {
    t.mode == Resetting || t.mode == Releasing
  }

  ghost predicate SensesOk(b: Barrier, e: nat) {
    b.sense == Odd(e) && forall t :: 0 <= t < |b.threads| ==> ThreadOk(b.threads[t], e)
  }

  /** Whoever finishes an episode does so while all others spin in it. */
  ghost predicate FinishesAlone(threads: seq<Thread>, e: nat) {
    forall t, u :: 0 <= t < |threads| && 0 <= u < |threads| && t != u && Finishing(threads[t]) ==>
      threads[u].mode == Spinning && threads[u].passed == e
  }

  ghost predicate SomeFinishing(threads: seq<Thread>) {
    exists t :: 0 <= t < |threads| && Finishing(threads[t])
  }

  ghost predicate SomeReleasing(threads: seq<Thread>) {
    exists t :: 0 <= t < |threads| && threads[t].mode == Releasing
  }

  ghost predicate Counted(b: Barrier, e: nat) {
    && b.count == (if SomeReleasing(b.threads) then 0 else |Waiting(b.threads, e)|)
    && (|Waiting(b.threads, e)| == |b.threads| ==> SomeFinishing(b.threads))
  }

  /** `e` episodes are over. */
  ghost predicate Inv(b: Barrier, e: nat) {
    b.threads != [] && SensesOk(b, e) && FinishesAlone(b.threads, e) && Counted(b, e)
  }

  /** All wait iff their number says so. */
  lemma EveryoneWaits(threads: seq<Thread>, e: nat)
    ensures |Waiting(threads, e)| <= |threads|
    ensures |Waiting(threads, e)| == |threads| <==>
            forall t :: 0 <= t < |threads| ==> threads[t].mode != Outside && threads[t].passed == e
  {
    var all, w := Below(|threads|), Waiting(threads, e);
    assert all == w + (all - w);
    if |w| == |threads| {
      assert all - w == {};
      forall t | 0 <= t < |threads|
        ensures threads[t].mode != Outside && threads[t].passed == e
      {
        assert t in all;
      }
    } else {
      assert all - w != {};
    }
  }

  lemma InitKeeps(b: Barrier)
    requires b.threads != [] && b.count == 0 && !b.sense
    requires forall t :: 0 <= t < |b.threads| ==> b.threads[t] == Thread(Outside, false, 0)
    ensures Inv(b, 0)
  {
    EveryoneWaits(b.threads, 0);
    assert b.threads[0].mode == Outside;
    assert Waiting(b.threads, 0) == {};
  }

  lemma ArriveKeeps(b: Barrier, e: nat, t: nat)
    requires Inv(b, e) && t < |b.threads| && b.threads[t].mode == Outside
    ensures Inv(Arrive(b, t), e)
  {
    var b' := Arrive(b, t);
    assert ThreadOk(b.threads[t], e);
    ArrivingCounts(b, e, t);
    if SomeFinishing(b'.threads) {
      EveryoneWaits(b'.threads, e);
    }
  }

  lemma OneMoreWaits(b: Barrier, e: nat, t: nat)
    requires t < |b.threads| && b.threads[t].mode == Outside && b.threads[t].passed == e
    ensures Waiting(Arrive(b, t).threads, e) == Waiting(b.threads, e) + {t} && t !in Waiting(b.threads, e)
  {
  }

  lemma ArrivingCounts(b: Barrier, e: nat, t: nat)
    requires Inv(b, e) && t < |b.threads| && b.threads[t].mode == Outside
    ensures var b' := Arrive(b, t);
            && Counted(b', e) && !SomeReleasing(b'.threads)
            && (SomeFinishing(b'.threads) <==> |Waiting(b'.threads, e)| == |b.threads|)
            && (forall u :: 0 <= u < |b.threads| && u != t ==> !Finishing(b'.threads[u]))
  {
    var b' := Arrive(b, t);
    assert ThreadOk(b.threads[t], e);
    NobodyFinishes(b, e, t);
    OneMoreWaits(b, e, t);
    assert b'.threads[t].mode != Releasing;
    if b.count == |b.threads| - 1 {
      assert Finishing(b'.threads[t]);
    }
  }

  /** While some thread is outside nobody resets or releases. */
  lemma NobodyFinishes(b: Barrier, e: nat, t: nat)
    requires FinishesAlone(b.threads, e) && t < |b.threads| && b.threads[t].mode == Outside
    ensures forall u :: 0 <= u < |b.threads| ==> !Finishing(b.threads[u])
  {
  }

  lemma MoveKeeps(b: Barrier, e: nat, t: nat)
    requires Inv(b, e) && t < |b.threads| && b.threads[t].mode != Outside
    ensures Inv(Move(b, t), if b.threads[t].mode == Releasing then e + 1 else e)
  {
    assert ThreadOk(b.threads[t], e);
    match b.threads[t].mode {
      case Resetting => ResetKeeps(b, e, t);
      case Releasing => ReleaseKeeps(b, e, t);
      case Spinning => SpinKeeps(b, e, t);
    }
  }

  lemma ResetKeeps(b: Barrier, e: nat, t: nat)
    requires Inv(b, e) && t < |b.threads| && b.threads[t].mode == Resetting
    ensures Inv(Move(b, t), e)
  {
    var b' := Move(b, t);
    assert ThreadOk(b.threads[t], e);
    assert b'.threads[t].mode == Releasing && Finishing(b'.threads[t]);
    assert SomeReleasing(b'.threads) && SomeFinishing(b'.threads);
    forall u | 0 <= u < |b.threads| && u != t
      ensures b'.threads[u] == b.threads[u] && b.threads[u].mode == Spinning && b.threads[u].passed == e
    {
    }
  }

  lemma ReleaseKeeps(b: Barrier, e: nat, t: nat)
    requires Inv(b, e) && t < |b.threads| && b.threads[t].mode == Releasing
    ensures Inv(Move(b, t), e + 1)
  {
    var b' := Move(b, t);
    forall u | 0 <= u < |b.threads|
      ensures ThreadOk(b'.threads[u], e + 1) && !Finishing(b'.threads[u])
    {
      assert ThreadOk(b.threads[u], e);
      assert Finishing(b.threads[t]);
    }
    assert Waiting(b'.threads, e + 1) == {};
    assert SomeReleasing(b.threads) && !SomeReleasing(b'.threads);
  }

  lemma SpinKeeps(b: Barrier, e: nat, t: nat)
    requires Inv(b, e) && t < |b.threads| && b.threads[t].mode == Spinning
    ensures Inv(Move(b, t), e)
  {
    var me, b' := b.threads[t], Move(b, t);
    assert ThreadOk(me, e);
    if b.sense == me.threadSense {
      assert me.passed + 1 == e;
      assert !SomeFinishing(b.threads);
      forall u | 0 <= u < |b.threads|
        ensures ThreadOk(b'.threads[u], e) && !Finishing(b'.threads[u])
      {
        assert ThreadOk(b.threads[u], e) && !Finishing(b.threads[u]);
      }
      assert !SomeReleasing(b.threads) by {
        forall u | 0 <= u < |b.threads| ensures b.threads[u].mode != Releasing {
          assert !Finishing(b.threads[u]);
        }
      }
      assert !SomeReleasing(b'.threads);
      assert Waiting(b'.threads, e) == Waiting(b.threads, e);
    }
  }

  /** The point of a barrier: whoever has left it k times knows that all others
      have arrived k times. */
  lemma PassedMeansArrived(b: Barrier, e: nat, t: nat, u: nat)
    requires Inv(b, e) && t < |b.threads| && u < |b.threads|
    ensures b.threads[t].passed <= Arrivals(b.threads[u])
  {
    assert ThreadOk(b.threads[t], e) && ThreadOk(b.threads[u], e);
  }

  /** Not everybody can be stuck inside: some thread's step has an effect. */
  lemma SomeoneMoves(b: Barrier, e: nat) returns (t: nat)
    requires Inv(b, e) && forall u :: 0 <= u < |b.threads| ==> b.threads[u].mode != Outside
    ensures t < |b.threads| && Move(b, t) != b
  {
    EveryoneWaits(b.threads, e);
    if u :| 0 <= u < |b.threads| && Finishing(b.threads[u]) {
      t := u;
      assert Move(b, t).threads[t] != b.threads[t];
    } else {
      t :| 0 <= t < |b.threads| && !(b.threads[t].mode != Outside && b.threads[t].passed == e);
      assert ThreadOk(b.threads[t], e);
      assert Move(b, t).threads[t] != b.threads[t];
    }
  }
}
