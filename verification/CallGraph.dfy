/** The call graph of the generated sub-programs.

Programs are arranged in levels; each level hands a shuffled pool, which holds
every program of the next level and perhaps one of them twice, to its own
programs in consecutive portions. For all levels, draws, shuffles and portion
sizes: calls go one level down, the portions make up the pool, every program but
the first is called and can be reached from the first, and the recursive printing
of call chains ends and prints exactly the maximal chains, each as often as its
calls can be chosen. */
module CallGraph {
  import opened Arithmetic
  import opened Collections

  class Program {
    var programId: nat
    var callStackLevel: nat
    var subProgramId: seq<nat>

    constructor ()
      ensures subProgramId == []
    {
      programId, callStackLevel, subProgramId := 0, 0, [];
    }
  }

  /** The constraint on the levels. */
  ghost predicate LegalLevels(levels: seq<nat>, maxStackLevel: nat) {
    && levels != [] && levels[0] == 0
    && forall i :: 0 < i < |levels| ==> LevelFits(levels, maxStackLevel, i)
  }

  ghost predicate LevelFits(levels: seq<nat>, maxStackLevel: nat, i: nat)
    requires 0 < i < |levels|
  {
    1 <= levels[i] <= |levels| - 1 && levels[i - 1] <= levels[i] <= levels[i - 1] + 1 && levels[i] <= maxStackLevel
  }

  function LastLevel(levels: seq<nat>): nat
    requires levels != []
  {
    levels[|levels| - 1]
  }

  /** The programs among the first `n` at level `l`, in ascending order. */
  function ListAt(levels: seq<nat>, n: nat, l: nat): (r: seq<nat>)
    requires n <= |levels|
    ensures forall p :: p in r <==> 0 <= p < n && levels[p] == l
    ensures Ascending(r) && Inside(r, n)
  {
    if n == 0 then []
    else
      var before := ListAt(levels, n - 1, l);
      if levels[n - 1] == l then before + [n - 1] else before
  }

  predicate Ascending(list: seq<nat>) {
    forall k, m :: 0 <= k < m < |list| ==> list[k] < list[m]
  }

  predicate Inside(list: seq<nat>, n: nat) {
    forall k :: 0 <= k < |list| ==> list[k] < n
  }

  function Members(levels: seq<nat>, l: nat): seq<nat> {
    ListAt(levels, |levels|, l)
  }

  lemma {:induction false} LevelsAreHit(levels: seq<nat>, maxStackLevel: nat, p: nat, l: nat)
    requires LegalLevels(levels, maxStackLevel) && p < |levels| && l <= levels[p]
    ensures exists q :: 0 <= q <= p && levels[q] == l
  {
    if levels[p] != l {
      assert LevelFits(levels, maxStackLevel, p);
      LevelsAreHit(levels, maxStackLevel, p - 1, l);
    }
  }

  lemma {:induction false} LevelsAscend(levels: seq<nat>, maxStackLevel: nat, p: nat, q: nat)
    requires LegalLevels(levels, maxStackLevel) && p <= q < |levels|
    ensures levels[p] <= levels[q]
  {
    if p < q {
      assert LevelFits(levels, maxStackLevel, q);
      LevelsAscend(levels, maxStackLevel, p, q - 1);
    }
  }

  // ----- what is drawn -----------------------------------------------------

  function Sum(s: seq<nat>): nat {
    if s == [] then 0 else s[0] + Sum(s[1..])
  }

  /** The random choices of one level: whether the pool gets an extra program and
      which, its order, and the portion sizes, which add up to the pool. */
  datatype Draws = Draws(extra: bool, choice: nat -> nat, shuffle: seq<nat> -> seq<nat>, portions: (nat, nat) -> seq<nat>)

  ghost predicate Fair(d: Draws) {
    && (forall n: nat :: n > 0 ==> d.choice(n) < n)
    && (forall s: seq<nat> :: multiset(d.shuffle(s)) == multiset(s))
    && (forall n: nat, total: nat :: n > 0 ==> |d.portions(n, total)| == n && Sum(d.portions(n, total)) == total)
  }

  /** A pool for the programs `next`: all of them, and at most one more call. */
  ghost predicate IsPool(pool: seq<nat>, next: seq<nat>) {
    multiset(pool) == multiset(next) || exists x :: x in next && multiset(pool) == multiset(next) + multiset{x}
  }

  // ----- handing out -------------------------------------------------------

  ghost predicate Shows(programs: seq<Program>, subs: seq<seq<nat>>)
    reads programs
  {
    |programs| == |subs| && forall p :: 0 <= p < |programs| ==> programs[p].subProgramId == subs[p]
  }

  /** The sub-programs of the listed programs, one after the other. */
  function Gather(subs: seq<seq<nat>>, list: seq<nat>): seq<nat>
    requires Inside(list, |subs|)
  {
    if list == [] then []
    else
      var n := |list| - 1;
      Gather(subs, list[..n]) + subs[list[n]]
  }

  lemma {:induction false} GatherFrame(subs: seq<seq<nat>>, subs': seq<seq<nat>>, list: seq<nat>)
    requires |subs| == |subs'| && Inside(list, |subs|) && forall k :: 0 <= k < |list| ==> subs[list[k]] == subs'[list[k]]
    ensures Gather(subs, list) == Gather(subs', list)
  {
    if list != [] {
      GatherFrame(subs, subs', list[..|list| - 1]);
    }
  }

  lemma {:induction false} GatheredFrom(subs: seq<seq<nat>>, list: seq<nat>, x: nat)
    requires Inside(list, |subs|)
    ensures x in Gather(subs, list) <==> exists k :: 0 <= k < |list| && x in subs[list[k]]
  {
    if list != [] {
      var n := |list| - 1;
      GatheredFrom(subs, list[..n], x);
    }
  }

  lemma {:induction false} SumSplit(s: seq<nat>, k: nat)
    requires k <= |s|
    ensures Sum(s) == Sum(s[..k]) + Sum(s[k..])
  {
    if k > 0 {
      SumSplit(s[1..], k - 1);
      assert s[..k][1..] == s[1..][..k - 1] && s[1..][k - 1..] == s[k..];
    }
  }

  lemma SumNext(s: seq<nat>, k: nat)
    requires k < |s|
    ensures Sum(s[..k + 1]) == Sum(s[..k]) + s[k]
  {
    SumSplit(s[..k + 1], k);
    assert s[..k + 1][..k] == s[..k] && s[..k + 1][k..] == [s[k]];
    assert Sum([s[k]]) == s[k] + Sum([s[k]][1..]);
  }

  /** The first `n` listed programs have as many sub-programs as they are to get. */
  ghost predicate HasPortions(subs: seq<seq<nat>>, list: seq<nat>, portions: seq<nat>, n: nat)
    requires n <= |list| == |portions| && Inside(list, |subs|)
  {
    forall j :: 0 <= j < n ==> |subs[list[j]]| == portions[j]
  }

  lemma PortionGiven(subs: seq<seq<nat>>, list: seq<nat>, portions: seq<nat>, j: nat, portion: seq<nat>)
    requires Inside(list, |subs|) && Ascending(list) && j < |list| == |portions| && |portion| == portions[j]
    requires HasPortions(subs, list, portions, j)
    ensures HasPortions(subs[list[j] := portion], list, portions, j + 1)
  {
    forall k | 0 <= k < j
      ensures list[k] != list[j]
    {
      assert list[j] !in list[..j];
      assert list[k] in list[..j];
    }
  }

  /** The pool goes out in order, to each its portion; nothing else changes. */
  method HandOut(programs: seq<Program>, list: seq<nat>, pool: seq<nat>, portions: seq<nat>, ghost subs: seq<seq<nat>>)
    returns (ghost subs': seq<seq<nat>>)
    requires NoDup(programs) && Shows(programs, subs)
    requires Inside(list, |programs|) && Ascending(list)
    requires |portions| == |list| && Sum(portions) == |pool|
    modifies programs`subProgramId
    ensures Shows(programs, subs') && |subs'| == |subs|
    ensures Gather(subs', list) == pool
    ensures HasPortions(subs', list, portions, |list|)
    ensures forall p :: 0 <= p < |programs| && p !in list ==> subs'[p] == subs[p]
  {
    var idx := 0;
    subs' := subs;
    assert portions[..0] == [] && list[..0] == [] && pool[..0] == [];
    for j := 0 to |list|
      invariant |subs'| == |subs| && Shows(programs, subs')
      invariant idx == Sum(portions[..j]) <= |pool|
      invariant Gather(subs', list[..j]) == pool[..idx]
      invariant HasPortions(subs', list, portions, j)
      invariant forall p :: 0 <= p < |programs| && p !in list[..j] ==> subs'[p] == subs[p]
    {
      var id := list[j];
      PortionFits(portions, j, pool);
      ghost var before := subs';
      var next := idx + portions[j];
      assert programs[id] in programs;
      SetSubs(programs, id, pool[idx..next], before);
      subs' := before[id := pool[idx..next]];
      PortionGathered(before, list, j, pool, idx, next);
      PortionGiven(before, list, portions, j, pool[idx..next]);
      idx := next;
    }
    assert portions[..|list|] == portions && list[..|list|] == list && pool[..|pool|] == pool;
  }

  lemma PortionFits(portions: seq<nat>, j: nat, pool: seq<nat>)
    requires j < |portions| && Sum(portions) == |pool|
    ensures Sum(portions[..j + 1]) == Sum(portions[..j]) + portions[j] <= |pool|
  {
    SumNext(portions, j);
    SumSplit(portions, j + 1);
  }

  lemma PortionGathered(before: seq<seq<nat>>, list: seq<nat>, j: nat, pool: seq<nat>, idx: nat, next: nat)
    requires Inside(list, |before|) && Ascending(list)
    requires j < |list| && idx <= next <= |pool| && Gather(before, list[..j]) == pool[..idx]
    ensures Gather(before[list[j] := pool[idx..next]], list[..j + 1]) == pool[..next]
  {
    var after := before[list[j] := pool[idx..next]];
    assert list[j] !in list[..j];
    GatherFrame(before, after, list[..j]);
    GatherNext(after, list, j);
    Portions(pool, idx, next);
  }

  lemma Portions(pool: seq<nat>, idx: nat, next: nat)
    requires idx <= next <= |pool|
    ensures pool[..idx] + pool[idx..next] == pool[..next]
  {
  }

  lemma GatherNext(subs: seq<seq<nat>>, list: seq<nat>, j: nat)
    requires Inside(list, |subs|) && j < |list|
    ensures Gather(subs, list[..j + 1]) == Gather(subs, list[..j]) + subs[list[j]]
  {
    assert list[..j + 1][..j] == list[..j];
  }

  method SetSubs(programs: seq<Program>, id: nat, portion: seq<nat>, ghost subs: seq<seq<nat>>)
    requires NoDup(programs) && Shows(programs, subs) && id < |programs|
    modifies programs`subProgramId
    ensures Shows(programs, subs[id := portion])
  {
    programs[id].subProgramId := [];
    for i := 0 to |portion|
      invariant Shows(programs, subs[id := portion[..i]])
    {
      programs[id].subProgramId := programs[id].subProgramId + [portion[i]];
      assert portion[..i] + [portion[i]] == portion[..i + 1];
    }
    assert portion[..|portion|] == portion;
  }

  // ----- the levels, top down ----------------------------------------------

  /** What one level's programs call between them. */
  ghost predicate LevelDone(levels: seq<nat>, subs: seq<seq<nat>>, l: nat)
    requires |subs| == |levels|
  {
    IsPool(Gather(subs, Members(levels, l)), Members(levels, l + 1))
  }

  ghost predicate DoneBelow(levels: seq<nat>, subs: seq<seq<nat>>, l: nat) {
    && |subs| == |levels|
    && (forall m: nat :: m < l ==> LevelDone(levels, subs, m))
    && (forall p :: 0 <= p < |levels| && levels[p] >= l ==> subs[p] == [])
  }

  /** program_list and next_program_list are filled in one pass. */
  method ListLevels(levels: seq<nat>, l: nat) returns (programList: seq<nat>, nextProgramList: seq<nat>)
    ensures programList == Members(levels, l) && nextProgramList == Members(levels, l + 1)
  {
    programList, nextProgramList := [], [];
    for j := 0 to |levels|
      invariant programList == ListAt(levels, j, l) && nextProgramList == ListAt(levels, j, l + 1)
    {
      if levels[j] == l {
        programList := programList + [j];
      }
      if levels[j] == l + 1 {
        nextProgramList := nextProgramList + [j];
      }
    }
  }

  method MakePool(next: seq<nat>, d: Draws) returns (pool: seq<nat>)
    requires next != [] && Fair(d)
    ensures IsPool(pool, next)
    ensures pool == d.shuffle(next + if d.extra then [next[d.choice(|next|)]] else [])
  {
    var total := |next| + if d.extra then 1 else 0;
    var ids: seq<nat> := [];
    for j := 0 to total
      invariant |ids| == j && (j <= |next| ==> ids == next[..j])
      invariant j > |next| ==> ids == next + [next[d.choice(|next|)]]
    {
      if j < |next| {
        ids := ids + [next[j]];
      } else {
        ids := ids + [next[d.choice(|next|)]];
      }
    }
    pool := d.shuffle(ids);
    if d.extra {
      var x := next[d.choice(|next|)];
      assert x in next && multiset(ids) == multiset(next) + multiset{x};
      assert ids == next + [x];
    } else {
      assert ids == next == next + [];
    }
  }

  /** The calls of level `l` are exactly what the draws say: who is in the pool, in which
      order, and how many of them each program gets. */
  ghost predicate LevelDrawn(levels: seq<nat>, subs: seq<seq<nat>>, d: Draws, l: nat) {
    var list, next := Members(levels, l), Members(levels, l + 1);
    && |subs| == |levels| && next != [] && d.choice(|next|) < |next|
    && var pool := Gather(subs, list);
       && pool == d.shuffle(next + if d.extra then [next[d.choice(|next|)]] else [])
       && |d.portions(|list|, |pool|)| == |list|
       && HasPortions(subs, list, d.portions(|list|, |pool|), |list|)
  }

  ghost predicate DrawnBelow(levels: seq<nat>, subs: seq<seq<nat>>, draws: nat -> Draws, l: nat) {
    forall m: nat :: m < l ==> LevelDrawn(levels, subs, draws(m), m)
  }

  lemma DrawnStays(levels: seq<nat>, subs: seq<seq<nat>>, subs': seq<seq<nat>>, draws: nat -> Draws, l: nat)
    requires DrawnBelow(levels, subs, draws, l) && |subs'| == |subs| == |levels|
    requires forall p :: 0 <= p < |levels| && levels[p] != l ==> subs'[p] == subs[p]
    requires LevelDrawn(levels, subs', draws(l), l)
    ensures DrawnBelow(levels, subs', draws, l + 1)
  {
    forall m: nat | m < l
      ensures LevelDrawn(levels, subs', draws(m), m)
    {
      var list := Members(levels, m);
      assert LevelDrawn(levels, subs, draws(m), m);
      forall k | 0 <= k < |list|
        ensures subs[list[k]] == subs'[list[k]]
      {
        assert list[k] in list;
      }
      GatherFrame(subs, subs', list);
    }
  }

  lemma MembersOfOtherLevel(levels: seq<nat>, subs: seq<seq<nat>>, subs': seq<seq<nat>>, l: nat)
    requires DoneBelow(levels, subs, l) && |subs'| == |subs|
    requires forall p :: 0 <= p < |levels| && p !in Members(levels, l) ==> subs'[p] == subs[p]
    requires LevelDone(levels, subs', l)
    ensures DoneBelow(levels, subs', l + 1)
  {
    forall m: nat | m < l + 1
      ensures LevelDone(levels, subs', m)
    {
      if m < l {
        var list := Members(levels, m);
        forall k | 0 <= k < |list|
          ensures subs[list[k]] == subs'[list[k]]
        {
          assert list[k] in list;
        }
        GatherFrame(subs, subs', list);
        assert LevelDone(levels, subs, m);
      }
    }
  }

  /** One turn of the level loop. */
  method AssignLevel(programs: seq<Program>, levels: seq<nat>, maxStackLevel: nat, l: nat, d: Draws,
                     ghost subs: seq<seq<nat>>)
    returns (ghost subs': seq<seq<nat>>)
    requires NoDup(programs) && Shows(programs, subs) && |programs| == |levels|
    requires LegalLevels(levels, maxStackLevel) && l < LastLevel(levels) && Fair(d) && DoneBelow(levels, subs, l)
    modifies programs`subProgramId
    ensures Shows(programs, subs') && DoneBelow(levels, subs', l + 1)
    ensures LevelDrawn(levels, subs', d, l)
    ensures forall p :: 0 <= p < |levels| && levels[p] != l ==> subs'[p] == subs[p]
  {
    var programList, nextProgramList := ListLevels(levels, l);
    LevelsAreHit(levels, maxStackLevel, |levels| - 1, l);
    LevelsAreHit(levels, maxStackLevel, |levels| - 1, l + 1);
    var pool := MakePool(nextProgramList, d);
    subs' := HandOut(programs, programList, pool, d.portions(|programList|, |pool|), subs);
    MembersOfOtherLevel(levels, subs, subs', l);
  }

  /** `post_randomize`. */
  method PostRandomize(programs: seq<Program>, levels: seq<nat>, maxStackLevel: nat, draws: nat -> Draws)
    returns (ghost subs: seq<seq<nat>>)
    requires NoDup(programs) && |programs| == |levels| && LegalLevels(levels, maxStackLevel)
    requires forall p :: 0 <= p < |programs| ==> programs[p].subProgramId == []
    requires forall l: nat :: Fair(draws(l))
    modifies programs
    ensures Shows(programs, subs) && DoneBelow(levels, subs, LastLevel(levels))
    ensures DrawnBelow(levels, subs, draws, LastLevel(levels))
    ensures forall p :: 0 <= p < |programs| ==> programs[p].programId == p && programs[p].callStackLevel == levels[p]
  {
    subs := seq(|levels|, p => []);
    var lastLevel := LastLevel(levels);
    SetIds(programs, levels, subs);
    for l := 0 to lastLevel
      invariant Shows(programs, subs) && DoneBelow(levels, subs, l) && DrawnBelow(levels, subs, draws, l)
      invariant forall p :: 0 <= p < |programs| ==> programs[p].programId == p && programs[p].callStackLevel == levels[p]
    {
      ghost var before := subs;
      subs := AssignLevel(programs, levels, maxStackLevel, l, draws(l), subs);
      DrawnStays(levels, before, subs, draws, l);
    }
  }

  method SetIds(programs: seq<Program>, levels: seq<nat>, ghost subs: seq<seq<nat>>)
    requires NoDup(programs) && |programs| == |levels| && Shows(programs, subs)
    modifies programs
    ensures Shows(programs, subs)
    ensures forall p :: 0 <= p < |programs| ==> programs[p].programId == p && programs[p].callStackLevel == levels[p]
  {
    for i := 0 to |programs|
      invariant Shows(programs, subs)
      invariant forall p :: 0 <= p < i ==> programs[p].programId == p && programs[p].callStackLevel == levels[p]
    {
      programs[i].programId := i;
      programs[i].callStackLevel := levels[i];
    }
  }

  // ----- the graph ---------------------------------------------------------

  ghost predicate Generated(levels: seq<nat>, maxStackLevel: nat, subs: seq<seq<nat>>) {
    LegalLevels(levels, maxStackLevel) && DoneBelow(levels, subs, LastLevel(levels))
  }

  lemma PoolMembers(pool: seq<nat>, next: seq<nat>, x: nat)
    requires IsPool(pool, next)
    ensures x in pool <==> x in next
  {
    assert x in pool <==> x in multiset(pool);
    assert x in next <==> x in multiset(next);
  }

  lemma DoneAt(levels: seq<nat>, subs: seq<seq<nat>>, last: nat, l: nat)
    requires DoneBelow(levels, subs, last) && l < last
    ensures LevelDone(levels, subs, l)
  {
  }

  /** What a level calls is exactly the next level. */
  lemma LevelCalls(levels: seq<nat>, subs: seq<seq<nat>>, l: nat, c: nat)
    requires |subs| == |levels| && LevelDone(levels, subs, l)
    ensures (exists k :: 0 <= k < |Members(levels, l)| && c in subs[Members(levels, l)[k]]) <==>
            c < |levels| && levels[c] == l + 1
  {
    GatheredFrom(subs, Members(levels, l), c);
    PoolMembers(Gather(subs, Members(levels, l)), Members(levels, l + 1), c);
  }

  /** A program calls only programs of the next level. */
  lemma CallsGoOneDown(levels: seq<nat>, maxStackLevel: nat, subs: seq<seq<nat>>, p: nat, c: nat)
    requires Generated(levels, maxStackLevel, subs) && p < |levels| && c in subs[p]
    ensures c < |levels| && levels[c] == levels[p] + 1
  {
    var list := Members(levels, levels[p]);
    assert p in list;
    var k :| 0 <= k < |list| && list[k] == p;
    LevelsAscend(levels, maxStackLevel, p, |levels| - 1);
    DoneAt(levels, subs, LastLevel(levels), levels[p]);
    LevelCalls(levels, subs, levels[p], c);
  }

  /** Every program but the first has a caller, one level up. */
  lemma EveryoneIsCalled(levels: seq<nat>, maxStackLevel: nat, subs: seq<seq<nat>>, c: nat) returns (p: nat)
    requires Generated(levels, maxStackLevel, subs) && 0 < c < |levels|
    ensures p < |levels| && c in subs[p] && levels[p] + 1 == levels[c]
  {
    LevelsAscend(levels, maxStackLevel, c, |levels| - 1);
    assert LevelFits(levels, maxStackLevel, c);
    var l: nat := levels[c] - 1;
    var list := Members(levels, l);
    DoneAt(levels, subs, LastLevel(levels), l);
    LevelCalls(levels, subs, l, c);
    var k :| 0 <= k < |list| && c in subs[list[k]];
    p := list[k];
    assert p in list;
  }

  /** A chain of calls. */
  ghost predicate Chain(subs: seq<seq<nat>>, path: seq<nat>) {
    path != [] && (forall k :: 0 <= k < |path| ==> path[k] < |subs|)
    && forall k :: 0 < k < |path| ==> path[k] in subs[path[k - 1]]
  }

  /** Every program can be reached from the first one. */
  lemma {:induction false} ReachableFromFirst(levels: seq<nat>, maxStackLevel: nat, subs: seq<seq<nat>>, c: nat)
    returns (path: seq<nat>)
    requires Generated(levels, maxStackLevel, subs) && c < |levels|
    ensures Chain(subs, path) && path[0] == 0 && path[|path| - 1] == c && |path| == levels[c] + 1
    decreases levels[c]
  {
    if c == 0 {
      path := [0];
    } else {
      var p := EveryoneIsCalled(levels, maxStackLevel, subs, c);
      var before := ReachableFromFirst(levels, maxStackLevel, subs, p);
      path := before + [c];
    }
  }

  /** No chain of calls comes back: its levels rise one by one. */
  lemma {:induction false} ChainsDescend(levels: seq<nat>, maxStackLevel: nat, subs: seq<seq<nat>>, path: seq<nat>, k: nat)
    requires Generated(levels, maxStackLevel, subs) && Chain(subs, path) && k < |path|
    ensures levels[path[k]] == levels[path[0]] + k
  {
    if k > 0 {
      ChainsDescend(levels, maxStackLevel, subs, path, k - 1);
      CallsGoOneDown(levels, maxStackLevel, subs, path[k - 1], path[k]);
    }
  }

  // ----- print_call_stack --------------------------------------------------

  /** The chains that `print_call_stack` prints for program `p`. */
  function Printed(levels: seq<nat>, subs: seq<seq<nat>>, p: nat, last: nat): seq<seq<nat>>
    requires |levels| == |subs| && p < |subs| && levels[p] <= last
    decreases last - levels[p], 1, 0
  {
    if |subs[p]| == 0 then [[p]] else PrintedFrom(levels, subs, p, 0, last)
  }

  /** ... for its calls from the j-th on; calls that do not lead down are the ones
      that would not end. */
  function PrintedFrom(levels: seq<nat>, subs: seq<seq<nat>>, p: nat, j: nat, last: nat): seq<seq<nat>>
    requires |levels| == |subs| && p < |subs| && levels[p] <= last && j <= |subs[p]|
    decreases last - levels[p], 0, |subs[p]| - j
  {
    if j == |subs[p]| then []
    else
      var c := subs[p][j];
      (if c < |subs| && levels[p] < levels[c] <= last then Prefixed(p, Printed(levels, subs, c, last)) else [])
      + PrintedFrom(levels, subs, p, j + 1, last)
  }

  function Prefixed(p: nat, chains: seq<seq<nat>>): (r: seq<seq<nat>>)
    ensures |r| == |chains| && forall k :: 0 <= k < |r| ==> r[k] == [p] + chains[k]
  {
    seq(|chains|, k requires 0 <= k < |chains| => [p] + chains[k])
  }

  /** A chain from `p` that cannot be prolonged. */
  ghost predicate MaximalChain(subs: seq<seq<nat>>, path: seq<nat>, p: nat) {
    Chain(subs, path) && path[0] == p && subs[path[|path| - 1]] == []
  }

  lemma CallStaysInside(levels: seq<nat>, maxStackLevel: nat, subs: seq<seq<nat>>, p: nat, c: nat)
    requires Generated(levels, maxStackLevel, subs) && p < |levels| && c in subs[p]
    ensures c < |levels| && levels[c] == levels[p] + 1 <= LastLevel(levels)
  {
    CallsGoOneDown(levels, maxStackLevel, subs, p, c);
    LevelsAscend(levels, maxStackLevel, c, |levels| - 1);
  }

  lemma ChainTail(subs: seq<seq<nat>>, path: seq<nat>, p: nat)
    requires |path| > 1
    ensures MaximalChain(subs, path, p) <==>
            path[0] == p && p < |subs| && path[1] in subs[p] && MaximalChain(subs, path[1..], path[1])
  {
    if MaximalChain(subs, path, p) {
      var tail := path[1..];
      forall k | 0 < k < |tail|
        ensures tail[k] in subs[tail[k - 1]]
      {
        assert tail[k] == path[k + 1] && tail[k - 1] == path[k];
      }
    }
    if path[0] == p && p < |subs| && path[1] in subs[p] && MaximalChain(subs, path[1..], path[1]) {
      var tail := path[1..];
      forall k | 0 <= k < |path|
        ensures path[k] < |subs| && (k > 0 ==> path[k] in subs[path[k - 1]])
      {
        if k > 0 {
          assert path[k] == tail[k - 1];
          if k > 1 {
            assert path[k - 1] == tail[k - 2];
            assert tail[k - 1] in subs[tail[k - 1 - 1]];
          }
        }
      }
    }
  }

  /** In how many ways the calls of a program make up this path: a program may be called
      more than once. */
  ghost function Ways(subs: seq<seq<nat>>, path: seq<nat>): nat
    requires forall k :: 0 <= k < |path| ==> path[k] < |subs|
  {
    if |path| <= 1 then 1 else multiset(subs[path[0]])[path[1]] * Ways(subs, path[1..])
  }

  lemma {:induction false} ChainHasWays(subs: seq<seq<nat>>, path: seq<nat>, p: nat)
    requires MaximalChain(subs, path, p)
    ensures Ways(subs, path) > 0
  {
    if |path| > 1 {
      ChainTail(subs, path, p);
      ChainHasWays(subs, path[1..], path[1]);
      assert path[1] in multiset(subs[path[0]]);
      MulMonotone(1, multiset(subs[path[0]])[path[1]], Ways(subs, path[1..]));
    }
  }

  lemma {:induction false} PrefixedCount(p: nat, chains: seq<seq<nat>>, path: seq<nat>)
    ensures multiset(Prefixed(p, chains))[path] == if path != [] && path[0] == p then multiset(chains)[path[1..]] else 0
  {
    if chains != [] {
      var n := |chains| - 1;
      PrefixedCount(p, chains[..n], path);
      assert chains == chains[..n] + [chains[n]];
      assert Prefixed(p, chains) == Prefixed(p, chains[..n]) + [[p] + chains[n]];
      assert path != [] ==> path == [path[0]] + path[1..];
      assert ([p] + chains[n])[1..] == chains[n];
    }
  }

  /** The recursion prints the maximal chains, each as often as its calls can be chosen. */
  lemma {:induction false} PrintedAsOftenAsCalled(levels: seq<nat>, maxStackLevel: nat, subs: seq<seq<nat>>,
                                                  p: nat, path: seq<nat>)
    requires Generated(levels, maxStackLevel, subs) && p < |levels| && levels[p] <= LastLevel(levels)
    ensures multiset(Printed(levels, subs, p, LastLevel(levels)))[path] == if MaximalChain(subs, path, p) then Ways(subs, path) else 0
    decreases LastLevel(levels) - levels[p], 1, 0
  {
    if |subs[p]| == 0 {
      assert |path| == 1 ==> path == [path[0]];
      assert MaximalChain(subs, [p], p);
    } else {
      PrintedFromAsOften(levels, maxStackLevel, subs, p, 0, path);
      ShareIsWays(subs, p, path);
    }
  }

  lemma ShareIsWays(subs: seq<seq<nat>>, p: nat, path: seq<nat>)
    requires p < |subs| && subs[p] != []
    ensures Share(subs, p, 0, path) == if MaximalChain(subs, path, p) then Ways(subs, path) else 0
  {
    assert subs[p][0..] == subs[p];
    if |path| > 1 {
      ChainTail(subs, path, p);
      assert path[1] in multiset(subs[p]) <==> path[1] in subs[p];
      if path[1] !in subs[p] {
        assert multiset(subs[p])[path[1]] == 0;
      }
    }
  }

  /** How often `path` is printed for the calls of `p` from the j-th on. */
  ghost function Share(subs: seq<seq<nat>>, p: nat, j: nat, path: seq<nat>): nat
    requires p < |subs| && j <= |subs[p]|
  {
    if |path| > 1 && path[0] == p && MaximalChain(subs, path[1..], path[1])
    then multiset(subs[p][j..])[path[1]] * Ways(subs, path[1..]) else 0
  }

  lemma ShareStep(subs: seq<seq<nat>>, p: nat, j: nat, path: seq<nat>)
    requires p < |subs| && j < |subs[p]|
    ensures var here := path != [] && path[0] == p && MaximalChain(subs, path[1..], subs[p][j]);
            Share(subs, p, j, path) == Share(subs, p, j + 1, path) + if here then Ways(subs, path[1..]) else 0
  {
    if |path| > 1 {
      assert path[1..][0] == path[1];
      CountFrom(subs[p], j, path[1]);
      if MaximalChain(subs, path[1..], path[1]) {
        Distribute(multiset(subs[p][j + 1..])[path[1]], if subs[p][j] == path[1] then 1 else 0, Ways(subs, path[1..]));
      }
    }
  }

  lemma CountFrom(s: seq<nat>, j: nat, x: nat)
    requires j < |s|
    ensures multiset(s[j..])[x] == multiset(s[j + 1..])[x] + if s[j] == x then 1 else 0
  {
    assert s[j..] == [s[j]] + s[j + 1..];
    assert multiset(s[j..]) == multiset{s[j]} + multiset(s[j + 1..]);
  }

  lemma Distribute(a: nat, b: nat, w: nat)
    ensures (a + b) * w == a * w + b * w
  {
  }

  lemma {:induction false} PrintedFromAsOften(levels: seq<nat>, maxStackLevel: nat, subs: seq<seq<nat>>, p: nat,
                                              j: nat, path: seq<nat>)
    requires Generated(levels, maxStackLevel, subs) && p < |levels| && levels[p] <= LastLevel(levels) && j <= |subs[p]|
    ensures multiset(PrintedFrom(levels, subs, p, j, LastLevel(levels)))[path] == Share(subs, p, j, path)
    decreases LastLevel(levels) - levels[p], 0, |subs[p]| - j
  {
    if j < |subs[p]| {
      var c, last := subs[p][j], LastLevel(levels);
      CallStaysInside(levels, maxStackLevel, subs, p, c);
      PrintedFromAsOften(levels, maxStackLevel, subs, p, j + 1, path);
      ShareStep(subs, p, j, path);
      PrefixedCount(p, Printed(levels, subs, c, last), path);
      if path != [] {
        PrintedAsOftenAsCalled(levels, maxStackLevel, subs, c, path[1..]);
      }
      FirstCallFirst(levels, subs, p, j, last, path);
    }
  }

  lemma FirstCallFirst(levels: seq<nat>, subs: seq<seq<nat>>, p: nat, j: nat, last: nat, path: seq<nat>)
    requires |levels| == |subs| && p < |subs| && levels[p] <= last && j < |subs[p]|
    requires subs[p][j] < |subs| && levels[p] < levels[subs[p][j]] <= last
    ensures multiset(PrintedFrom(levels, subs, p, j, last))[path]
         == multiset(Prefixed(p, Printed(levels, subs, subs[p][j], last)))[path]
            + multiset(PrintedFrom(levels, subs, p, j + 1, last))[path]
  {
  }

  /** So exactly the maximal chains are printed. */
  lemma PrintedAreMaximalChains(levels: seq<nat>, maxStackLevel: nat, subs: seq<seq<nat>>, p: nat, path: seq<nat>)
    requires Generated(levels, maxStackLevel, subs) && p < |levels| && levels[p] <= LastLevel(levels)
    ensures path in Printed(levels, subs, p, LastLevel(levels)) <==> MaximalChain(subs, path, p)
  {
    PrintedAsOftenAsCalled(levels, maxStackLevel, subs, p, path);
    if MaximalChain(subs, path, p) {
      ChainHasWays(subs, path, p);
    }
    assert path in Printed(levels, subs, p, LastLevel(levels)) <==> path in multiset(Printed(levels, subs, p, LastLevel(levels)));
  }

  /** No printed chain is longer than the number of levels. */
  lemma PrintedChainsAreShort(levels: seq<nat>, maxStackLevel: nat, subs: seq<seq<nat>>, path: seq<nat>)
    requires Generated(levels, maxStackLevel, subs)
    requires levels[0] <= LastLevel(levels) && path in Printed(levels, subs, 0, LastLevel(levels))
    ensures |path| <= LastLevel(levels) + 1
  {
    PrintedAreMaximalChains(levels, maxStackLevel, subs, 0, path);
    ChainsDescend(levels, maxStackLevel, subs, path, |path| - 1);
    LevelsAscend(levels, maxStackLevel, path[|path| - 1], |levels| - 1);
  }
}
