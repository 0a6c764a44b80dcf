/** Cores that share an array.

What a core does to the array is recorded as a log of loads and stores, made while
the core runs alone. The module proves that logs of cores which keep to cells of their
own can be interleaved at will: every load still finds what it found alone, so every
core still does exactly what its log says, and every cell ends as its owner leaves it. */
module Interleaving {

  datatype Access = Load(p: nat, v: int) | Store(p: nat, v: int)

  function Apply(m: seq<int>, x: Access): (r: seq<int>)
    ensures |r| == |m|
  {
    if x.Store? && x.p < |m| then m[x.p := x.v] else m
  }

  /** The array after a log. */
  function Mem(m: seq<int>, log: seq<Access>): (r: seq<int>)
    ensures |r| == |m|
  {
    if log == [] then m else Apply(Mem(m, log[..|log| - 1]), log[|log| - 1])
  }

  /** The access is inside the array, and a load finds this value. */
  predicate Fits(m: seq<int>, x: Access) {
    x.p < |m| && (x.Load? ==> m[x.p] == x.v)
  }

  predicate Legal(m: seq<int>, log: seq<Access>) {
    log == [] || (Legal(m, log[..|log| - 1]) && Fits(Mem(m, log[..|log| - 1]), log[|log| - 1]))
  }

  ghost predicate Stays(log: seq<Access>, own: iset<nat>) {
    forall k :: 0 <= k < |log| ==> log[k].p in own
  }

  lemma OneMore(m: seq<int>, log: seq<Access>, x: Access)
    ensures Mem(m, log + [x]) == Apply(Mem(m, log), x)
    ensures Legal(m, log + [x]) <==> Legal(m, log) && Fits(Mem(m, log), x)
  {
    assert (log + [x])[..|log|] == log;
  }

  // ----- a core alone ------------------------------------------------------

  /** What a core has done since the array held `start`, and the cells it keeps to. */
  datatype Trace = Trace(start: seq<int>, log: seq<Access>, own: iset<nat>)

  /** The trace has led to `m`. */
  ghost predicate LedTo(t: Trace, m: seq<int>) {
    Legal(t.start, t.log) && Mem(t.start, t.log) == m && Stays(t.log, t.own)
  }

  /** Nothing done yet. */
  function Begin(m: seq<int>, own: iset<nat>): (t: Trace)
    ensures LedTo(t, m) && t.own == own && t.start == m
  {
    Trace(m, [], own)
  }

  /** `t'` goes on from `t`, and has led to `m`. */
  ghost predicate GoesOn(t: Trace, t': Trace, m: seq<int>) {
    t'.start == t.start && t'.own == t.own && LedTo(t', m)
  }

  function Log(t: Trace, x: Access): Trace {
    t.(log := t.log + [x])
  }

  lemma Loads(t: Trace, m: seq<int>, p: nat)
    requires LedTo(t, m) && p < |m| && p in t.own
    ensures GoesOn(t, Log(t, Load(p, m[p])), m)
  {
    OneMore(t.start, t.log, Load(p, m[p]));
  }

  lemma Stores(t: Trace, m: seq<int>, p: nat, v: int)
    requires LedTo(t, m) && p < |m| && p in t.own
    ensures GoesOn(t, Log(t, Store(p, v)), m[p := v])
  {
    OneMore(t.start, t.log, Store(p, v));
  }

  // ----- all cores at once -------------------------------------------------

  /** How often core `c` has had its turn. */
  function Turns(schedule: seq<nat>, c: nat): nat {
    if schedule == [] then 0
    else Turns(schedule[..|schedule| - 1], c) + if schedule[|schedule| - 1] == c then 1 else 0
  }

  /** Every turn is that of a core that still has something to do. */
  predicate IsSchedule(schedule: seq<nat>, ts: seq<Trace>) {
    schedule == [] ||
    var n := |schedule| - 1;
    IsSchedule(schedule[..n], ts) && schedule[n] < |ts| && Turns(schedule[..n], schedule[n]) < |ts[schedule[n]].log|
  }

  ghost predicate IsComplete(schedule: seq<nat>, ts: seq<Trace>) {
    IsSchedule(schedule, ts) && forall c :: 0 <= c < |ts| ==> Turns(schedule, c) == |ts[c].log|
  }

  /** The accesses in the order of the schedule. */
  function Accesses(ts: seq<Trace>, schedule: seq<nat>): (r: seq<Access>)
    requires IsSchedule(schedule, ts)
    ensures |r| == |schedule|
  {
    if schedule == [] then []
    else
      var n := |schedule| - 1;
      Accesses(ts, schedule[..n]) + [ts[schedule[n]].log[Turns(schedule[..n], schedule[n])]]
  }

  ghost predicate Alone(t: Trace, m: seq<int>) {
    t.start == m && Legal(m, t.log) && Stays(t.log, t.own)
  }

  /** All cores started from `m`, and no two of them keep to the same cell. */
  ghost predicate Apart(ts: seq<Trace>, m: seq<int>) {
    && (forall c :: 0 <= c < |ts| ==> Alone(ts[c], m))
    && forall c, d, p :: 0 <= c < |ts| && 0 <= d < |ts| && p in ts[c].own && p in ts[d].own ==> c == d
  }

  /** Each cell is as its owner alone would have left it after as many turns. */
  ghost predicate OwnersDecide(ts: seq<Trace>, m: seq<int>, schedule: seq<nat>, now: seq<int>) {
    && |now| == |m|
    && (forall c, p :: 0 <= c < |ts| && 0 <= p < |m| && p in ts[c].own ==> now[p] == After(ts, m, schedule, c)[p])
    && forall p: nat :: p < |m| && (forall c :: 0 <= c < |ts| ==> p !in ts[c].own) ==> now[p] == m[p]
  }

  /** The array after the turns of core `c` alone. */
  function After(ts: seq<Trace>, m: seq<int>, schedule: seq<nat>, c: nat): (r: seq<int>)
    requires c < |ts|
    ensures |r| == |m|
  {
    FirstOf(m, ts[c].log, Turns(schedule, c))
  }

  /** The array after the first `n` accesses of a log. */
  function FirstOf(m: seq<int>, log: seq<Access>, n: nat): (r: seq<int>)
    ensures |r| == |m|
  {
    if n <= |log| then Mem(m, log[..n]) else Mem(m, log)
  }

  lemma {:induction false} LegalPrefix(m: seq<int>, log: seq<Access>, n: nat)
    requires Legal(m, log) && n < |log|
    ensures Fits(Mem(m, log[..n]), log[n])
    ensures Mem(m, log[..n + 1]) == Apply(Mem(m, log[..n]), log[n])
  {
    if n < |log| - 1 {
      LegalPrefix(m, log[..|log| - 1], n);
      assert log[..|log| - 1][..n] == log[..n] && log[..|log| - 1][..n + 1] == log[..n + 1];
    }
    assert log[..n + 1][..n] == log[..n];
  }

  /** The access of the last turn. */
  function LastAccess(ts: seq<Trace>, schedule: seq<nat>): Access
    requires schedule != [] && IsSchedule(schedule, ts)
  {
    var n := |schedule| - 1;
    ts[schedule[n]].log[Turns(schedule[..n], schedule[n])]
  }

  lemma TurnFits(ts: seq<Trace>, m: seq<int>, schedule: seq<nat>)
    requires schedule != [] && IsSchedule(schedule, ts) && Apart(ts, m)
    ensures var n, x := |schedule| - 1, LastAccess(ts, schedule);
            && Fits(After(ts, m, schedule[..n], schedule[n]), x) && x.p in ts[schedule[n]].own
            && After(ts, m, schedule, schedule[n]) == Apply(After(ts, m, schedule[..n], schedule[n]), x)
  {
    var n := |schedule| - 1;
    var t := ts[schedule[n]];
    assert Alone(t, m);
    FirstOfMore(m, t.log, t.own, Turns(schedule[..n], schedule[n]));
  }

  lemma FirstOfMore(m: seq<int>, log: seq<Access>, own: iset<nat>, k: nat)
    requires Legal(m, log) && Stays(log, own) && k < |log|
    ensures Fits(FirstOf(m, log, k), log[k]) && log[k].p in own
    ensures FirstOf(m, log, k + 1) == Apply(FirstOf(m, log, k), log[k])
  {
    LegalPrefix(m, log, k);
  }

  lemma OthersWait(ts: seq<Trace>, m: seq<int>, schedule: seq<nat>, d: nat)
    requires schedule != [] && d < |ts| && d != schedule[|schedule| - 1]
    ensures After(ts, m, schedule, d) == After(ts, m, schedule[..|schedule| - 1], d)
  {
  }

  /** Interleaved in any order and up to any point, every access happens as it did when
      the core was alone, and the cells are as their owners would have left them. */
  lemma {:induction false} NoInterference(ts: seq<Trace>, m: seq<int>, schedule: seq<nat>)
    requires Apart(ts, m) && IsSchedule(schedule, ts)
    ensures Legal(m, Accesses(ts, schedule))
    ensures OwnersDecide(ts, m, schedule, Mem(m, Accesses(ts, schedule)))
  {
    if schedule == [] {
      forall c | 0 <= c < |ts|
        ensures After(ts, m, schedule, c) == m
      {
        assert ts[c].log[..0] == [];
      }
    } else {
      var n := |schedule| - 1;
      NoInterference(ts, m, schedule[..n]);
      var before, x := Mem(m, Accesses(ts, schedule[..n])), LastAccess(ts, schedule);
      OneMore(m, Accesses(ts, schedule[..n]), x);
      TurnFits(ts, m, schedule);
      assert before[x.p] == After(ts, m, schedule[..n], schedule[n])[x.p];
      OneTurn(ts, m, schedule, before);
    }
  }

  lemma OneTurn(ts: seq<Trace>, m: seq<int>, schedule: seq<nat>, before: seq<int>)
    requires Apart(ts, m) && schedule != [] && IsSchedule(schedule, ts)
    requires OwnersDecide(ts, m, schedule[..|schedule| - 1], before)
    ensures OwnersDecide(ts, m, schedule, Apply(before, LastAccess(ts, schedule)))
  {
    var n, x := |schedule| - 1, LastAccess(ts, schedule);
    TurnFits(ts, m, schedule);
    forall d, p | 0 <= d < |ts| && 0 <= p < |m| && p in ts[d].own
      ensures Apply(before, x)[p] == After(ts, m, schedule, d)[p]
    {
      assert before[p] == After(ts, m, schedule[..n], d)[p];
      if d != schedule[n] {
        OthersWait(ts, m, schedule, d);
      }
    }
  }

  /** So once all are through, each cell is as its owner alone leaves it. */
  lemma AllThrough(ts: seq<Trace>, m: seq<int>, schedule: seq<nat>, c: nat, p: nat)
    requires Apart(ts, m) && IsComplete(schedule, ts) && c < |ts| && p < |m| && p in ts[c].own
    ensures Mem(m, Accesses(ts, schedule))[p] == Mem(m, ts[c].log)[p]
  {
    NoInterference(ts, m, schedule);
    assert ts[c].log[..|ts[c].log|] == ts[c].log;
    assert Mem(m, Accesses(ts, schedule))[p] == After(ts, m, schedule, c)[p];
  }
}
