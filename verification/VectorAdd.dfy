/** Vector addition split over cores.

Two kernels. The first gives every core a block and deals the rest out one by one;
it is proved when all of the vector gets written, and that no element ever has two
writers. The second copies with a loop that is entered in the middle and counts in a
wrapping `size_t`; it is proved that it copies as many elements as asked for exactly
when that is at least one and no more than the counter can round up, and which part of
the vector the cores reach together. The result may be one of the operands, and the
cores may run in any order, or at once with their accesses interleaved. */
module VectorAdd {
  import opened Arithmetic
  import opened Collections
  import opened Interleaving

  /** `z` with the sums put in from `lo` to `hi`, the latter not included. */
  function Added(z: seq<int>, x: seq<int>, y: seq<int>, lo: nat, hi: nat): (r: seq<int>)
    requires lo <= hi <= |x| && |x| == |y| == |z|
    ensures |r| == |z|
    ensures forall i :: 0 <= i < |z| ==> r[i] == if lo <= i < hi then x[i] + y[i] else z[i]
  {
    seq(|z|, i requires 0 <= i < |z| => if lo <= i < hi then x[i] + y[i] else z[i])
  }

  // ----- blocks and leftovers ----------------------------------------------

  function Block(ncores: nat, n: nat): (q: nat)
    requires 0 < ncores <= n
    ensures q > 0
  {
    MulMonotone(1, ncores, 1);
    n / ncores
  }

  /** Where the block of core `k` starts; the block of the last core ends where that of
      one more core would start. */
  function Start(k: nat, ncores: nat, n: nat): (f: nat)
    requires 0 < ncores <= n && k <= ncores
    ensures f <= n
  {
    StartsAreOrdered(k, ncores, ncores, n);
    k * Block(ncores, n)
  }

  lemma StartsAreOrdered(k: nat, m: nat, ncores: nat, n: nat)
    requires 0 < ncores <= n && k <= m <= ncores
    ensures k * Block(ncores, n) <= m * Block(ncores, n) <= n - n % ncores
    ensures ncores * Block(ncores, n) == n - n % ncores
  {
    MulMonotone(k, m, Block(ncores, n));
    MulMonotone(m, ncores, Block(ncores, n));
    assert n == ncores * Block(ncores, n) + n % ncores;
  }

  lemma NextStart(k: nat, ncores: nat, n: nat)
    requires 0 < ncores <= n && k < ncores
    ensures Start(k + 1, ncores, n) == Start(k, ncores, n) + Block(ncores, n) <= n - n % ncores
  {
    StartsAreOrdered(k + 1, ncores, ncores, n);
    assert (k + 1) * Block(ncores, n) == k * Block(ncores, n) + Block(ncores, n);
  }

  function Leftover(ncores: nat, n: nat): (l: nat)
    requires 0 < ncores <= n
    ensures l < Block(ncores, n) && l <= n % ncores
  {
    LeftoverIs(ncores, n);
    n % Block(ncores, n)
  }

  lemma LeftoverIs(ncores: nat, n: nat)
    requires 0 < ncores <= n
    ensures n % Block(ncores, n) <= n % ncores
    ensures n % ncores < Block(ncores, n) ==> n % Block(ncores, n) == n % ncores
  {
    assert n == ncores * Block(ncores, n) + n % ncores;
    RemainderOfSum(ncores, Block(ncores, n), n % ncores);
  }

  lemma RemainderOfSum(x: nat, q: nat, r: nat)
    requires q > 0
    ensures (x * q + r) % q == r % q <= r
    ensures r < q ==> r % q == r
  {
    var k := r / q;
    assert r == k * q + r % q;
    assert (x + k) * q == x * q + k * q;
    RemainderIs(x * q + r, q, x + k, r % q);
    MulMonotone(0, k, q);
  }

  predicate InBlock(coreid: nat, ncores: nat, n: nat, i: int)
    requires coreid < ncores <= n
  {
    Start(coreid, ncores, n) <= i < Start(coreid + 1, ncores, n)
  }

  /** Core `coreid` writes element `i`: in its block, or as the one leftover element
      that is dealt out to it. */
  predicate Writes(coreid: nat, ncores: nat, n: nat, i: int)
    requires coreid < ncores <= n
  {
    || InBlock(coreid, ncores, n, i)
    || i == n - Leftover(ncores, n) + coreid < n
  }

  /** The elements in `r` hold their sums, the others are as before. */
  ghost predicate SumsAt(z: seq<int>, was: seq<int>, x: seq<int>, y: seq<int>, r: set<nat>) {
    && |x| == |y| == |z| == |was|
    && forall i: nat :: i < |z| ==> z[i] == if i in r then x[i] + y[i] else was[i]
  }

  /** What operand `x` of old value `v` holds: it may be the result itself. */
  ghost predicate Operand(x: array<int>, v: seq<int>, z: array<int>, was: seq<int>)
    reads x
  {
    if x == z then v == was else x[..] == v
  }

  /** The elements that a core writes. */
  ghost function Part0(coreid: nat, ncores: nat, n: nat): (r: set<nat>)
    requires coreid < ncores <= n
    ensures forall i: nat :: i in r <==> i < n && Writes(coreid, ncores, n, i)
  {
    set i: nat | i < n && Writes(coreid, ncores, n, i)
  }

  /** The record of `z[i] = x[i] + y[i]`, where the operands may be the result. */
  lemma SumIsLogged(t: Trace, m: seq<int>, i: nat, xIsZ: bool, yIsZ: bool, v: int) returns (t': Trace)
    requires LedTo(t, m) && i < |m| && i in t.own
    ensures GoesOn(t, t', m[i := v])
  {
    t' := t;
    if xIsZ {
      Loads(t', m, i);
      t' := Log(t', Load(i, m[i]));
    }
    if yIsZ {
      Loads(t', m, i);
      t' := Log(t', Load(i, m[i]));
    }
    Stores(t', m, i, v);
    t' := Log(t', Store(i, v));
  }

  /** The first loop, for a block; the operands are read where nothing was written yet. */
  method AddFrom(x: array<int>, y: array<int>, z: array<int>, lo: nat, hi: nat, ghost t: Trace) returns (ghost t': Trace)
    requires lo <= hi <= z.Length == x.Length == y.Length
    requires LedTo(t, z[..]) && forall i: nat :: lo <= i < hi ==> i in t.own
    modifies z
    ensures GoesOn(t, t', z[..])
    ensures z[..] == Added(old(z[..]), old(x[..]), old(y[..]), lo, hi)
  {
    ghost var was, xv, yv := z[..], x[..], y[..];
    var i := lo;
    t' := t;
    while i < hi
      invariant lo <= i <= hi && GoesOn(t, t', z[..])
      invariant z[..] == Added(was, xv, yv, lo, i)
      invariant Operand(x, xv, z, was) && Operand(y, yv, z, was)
    {
      t' := SumIsLogged(t', z[..], i, x == z, y == z, x[i] + y[i]);
      z[i] := x[i] + y[i];
      i := i + 1;
    }
  }

  /** The second loop, which runs at most once. */
  method AddLeftover(x: array<int>, y: array<int>, z: array<int>, dealt: nat, ncores: nat, ghost t: Trace)
    returns (ghost t': Trace)
    requires z.Length == x.Length == y.Length && dealt + ncores >= z.Length && ncores > 0
    requires LedTo(t, z[..]) && (dealt < z.Length ==> dealt in t.own)
    modifies z
    ensures GoesOn(t, t', z[..])
    ensures z[..] == if dealt < z.Length then Added(old(z[..]), old(x[..]), old(y[..]), dealt, dealt + 1) else old(z[..])
  {
    var i := dealt;
    t' := t;
    while i < z.Length
      invariant GoesOn(t, t', z[..]) && (i == dealt || z.Length <= i)
      invariant i == dealt ==> z[..] == old(z[..])
      invariant i == dealt ==> x[..] == old(x[..]) && y[..] == old(y[..])
      invariant i != dealt ==> dealt < z.Length && z[..] == Added(old(z[..]), old(x[..]), old(y[..]), dealt, dealt + 1)
    {
      t' := SumIsLogged(t', z[..], i, x == z, y == z, x[i] + y[i]);
      z[i] := x[i] + y[i];
      i := i + ncores;
    }
  }

  /** The cells of a set. */
  ghost function Own(r: set<nat>): iset<nat> {
    iset i | i in r
  }

  /** `vvadd` of vvadd0; the trace records what it does to the result array. */
  method Vvadd0(coreid: nat, ncores: nat, n: nat, x: array<int>, y: array<int>, z: array<int>, ghost t: Trace)
    returns (ghost t': Trace)
    requires coreid < ncores <= n == x.Length == y.Length == z.Length
    requires LedTo(t, z[..]) && t.own == Own(Part0(coreid, ncores, n))
    modifies z
    ensures GoesOn(t, t', z[..])
    ensures SumsAt(z[..], old(z[..]), old(x[..]), old(y[..]), Part0(coreid, ncores, n))
  {
    ghost var was, xv, yv := z[..], x[..], y[..];
    NextStart(coreid, ncores, n);
    LeftoverIsDealtOnce(ncores, n);
    var leftover := n % (n / ncores);
    t' := AddFrom(x, y, z, coreid * (n / ncores), (coreid + 1) * (n / ncores), t);
    ghost var mid, xm, ym := z[..], x[..], y[..];
    t' := AddLeftover(x, y, z, (n - leftover) + coreid, ncores, t');
    BothLoops(z[..], mid, was, xm, ym, xv, yv, coreid, ncores);
  }

  lemma LeftoverIsDealtOnce(ncores: nat, n: nat)
    requires 0 < ncores <= n
    ensures n / ncores > 0 && n % (n / ncores) == Leftover(ncores, n) < ncores
  {
    assert n / ncores == Block(ncores, n);
  }

  lemma BothLoops(z: seq<int>, mid: seq<int>, was: seq<int>, xm: seq<int>, ym: seq<int>, x: seq<int>,
                  y: seq<int>, coreid: nat, ncores: nat)
    requires |z| == |mid| == |was| == |xm| == |ym| == |x| == |y| && coreid < ncores <= |z|
    requires Start(coreid, ncores, |z|) <= Start(coreid + 1, ncores, |z|)
    requires mid == Added(was, x, y, Start(coreid, ncores, |z|), Start(coreid + 1, ncores, |z|))
    requires (xm == x || (xm == mid && x == was)) && (ym == y || (ym == mid && y == was))
    requires var dealt := |z| - Leftover(ncores, |z|) + coreid;
             z == if dealt < |z| then Added(mid, xm, ym, dealt, dealt + 1) else mid
    ensures SumsAt(z, was, x, y, Part0(coreid, ncores, |z|))
  {
    NextStart(coreid, ncores, |z|);
  }

  /** No element has two writers. */
  lemma NoRace(c: nat, d: nat, ncores: nat, n: nat, i: int)
    requires c < ncores <= n && d < ncores
    requires Writes(c, ncores, n, i) && Writes(d, ncores, n, i)
    ensures c == d
  {
    NextStart(c, ncores, n);
    NextStart(d, ncores, n);
    if c < d {
      StartsAreOrdered(c + 1, d, ncores, n);
    } else if d < c {
      StartsAreOrdered(d + 1, c, ncores, n);
    }
  }

  /** Some core writes element `i`. */
  ghost predicate Covered(ncores: nat, n: nat, i: nat)
    requires 0 < ncores <= n
  {
    exists c: nat :: c < ncores && Writes(c, ncores, n, i)
  }

  lemma {:induction false} BlockOwner(k: nat, ncores: nat, n: nat, i: nat) returns (c: nat)
    requires 0 < ncores <= n && k <= ncores && i < Start(k, ncores, n)
    ensures c < k && InBlock(c, ncores, n, i)
  {
    if i < Start(k - 1, ncores, n) {
      c := BlockOwner(k - 1, ncores, n, i);
    } else {
      c := k - 1;
    }
  }

  /** The gap between the blocks and the leftovers is what no core writes. */
  lemma CoveredIs(ncores: nat, n: nat, i: nat)
    requires 0 < ncores <= n && i < n
    ensures Covered(ncores, n, i) <==> !(n - n % ncores <= i < n - Leftover(ncores, n))
  {
    StartsAreOrdered(ncores, ncores, ncores, n);
    if i < n - n % ncores {
      var c := BlockOwner(ncores, ncores, n, i);
      assert Writes(c, ncores, n, i);
    } else if n - Leftover(ncores, n) <= i {
      assert Writes(i - (n - Leftover(ncores, n)), ncores, n, i);
    } else {
      forall c: nat | c < ncores
        ensures !Writes(c, ncores, n, i)
      {
        NextStart(c, ncores, n);
      }
    }
  }

  /** All of the vector is written exactly when the remainder is smaller than a block. */
  lemma AllCoveredIff(ncores: nat, n: nat)
    requires 0 < ncores <= n
    ensures (forall i: nat :: i < n ==> Covered(ncores, n, i)) <==> n % ncores < n / ncores
  {
    LeftoverIs(ncores, n);
    if n % ncores < Block(ncores, n) {
      forall i: nat | i < n
        ensures Covered(ncores, n, i)
      {
        CoveredIs(ncores, n, i);
      }
    } else {
      CoveredIs(ncores, n, n - n % ncores);
      assert !Covered(ncores, n, n - n % ncores);
    }
  }

  // ----- the cores in any order --------------------------------------------

  /** What the first `k` cores of the order have written. */
  ghost function Reached(order: seq<nat>, k: nat, part: nat -> set<nat>): set<nat>
    requires k <= |order|
  {
    if k == 0 then {} else Reached(order, k - 1, part) + part(order[k - 1])
  }

  ghost predicate Separate(part: nat -> set<nat>, ncores: nat) {
    forall c: nat, d: nat, i: nat :: c < ncores && d < ncores && i in part(c) && i in part(d) ==> c == d
  }

  lemma {:induction false} ReachedIs(order: seq<nat>, k: nat, part: nat -> set<nat>, i: nat)
    requires k <= |order|
    ensures i in Reached(order, k, part) <==> exists m: nat :: m < k && i in part(order[m])
  {
    if k > 0 {
      ReachedIs(order, k - 1, part, i);
    }
  }

  lemma AllReached(order: seq<nat>, part: nat -> set<nat>, i: nat)
    requires Permutation(order)
    ensures i in Reached(order, |order|, part) <==> exists c: nat :: c < |order| && i in part(c)
  {
    ReachedIs(order, |order|, part, i);
    if c: nat :| c < |order| && i in part(c) {
      Onto(order, c);
    }
  }

  /** The next core writes what nobody has written, and finds the operands there unchanged. */
  lemma NextCore(order: seq<nat>, k: nat, part: nat -> set<nat>, z: seq<int>, mid: seq<int>, was: seq<int>,
                 xm: seq<int>, ym: seq<int>, x: seq<int>, y: seq<int>)
    requires k < |order| && Permutation(order) && Separate(part, |order|)
    requires SumsAt(mid, was, x, y, Reached(order, k, part)) && SumsAt(z, mid, xm, ym, part(order[k]))
    requires (xm == x || (xm == mid && x == was)) && (ym == y || (ym == mid && y == was))
    ensures SumsAt(z, was, x, y, Reached(order, k + 1, part))
  {
    forall i: nat | i < |z|
      ensures z[i] == if i in Reached(order, k + 1, part) then x[i] + y[i] else was[i]
    {
      ReachedIs(order, k, part, i);
    }
  }

  ghost function Parts0(ncores: nat, n: nat): nat -> set<nat> {
    (c: nat) => if c < ncores <= n then Part0(c, ncores, n) else {}
  }

  lemma Parts0AreSeparate(ncores: nat, n: nat)
    requires 0 < ncores <= n
    ensures Separate(Parts0(ncores, n), ncores)
  {
    forall c: nat, d: nat, i: nat | c < ncores && d < ncores && i in Parts0(ncores, n)(c) && i in Parts0(ncores, n)(d)
      ensures c == d
    {
      NoRace(c, d, ncores, n, i);
    }
  }

  lemma AllReached0(order: seq<nat>, n: nat, i: nat)
    requires Permutation(order) && 0 < |order| <= n && i < n
    ensures i in Reached(order, |order|, Parts0(|order|, n)) <==> Covered(|order|, n, i)
  {
    AllReached(order, Parts0(|order|, n), i);
    forall c: nat | c < |order|
      ensures i in Parts0(|order|, n)(c) <==> Writes(c, |order|, n, i)
    {
    }
  }

  /** The cores up to place `k` of the order are through. */
  ghost predicate Through0(order: seq<nat>, k: nat, x: array<int>, y: array<int>, z: array<int>, was: seq<int>,
                           xv: seq<int>, yv: seq<int>)
    requires k <= |order|
    reads x, y, z
  {
    && SumsAt(z[..], was, xv, yv, Reached(order, k, Parts0(|order|, z.Length)))
    && Operand(x, xv, z, was) && Operand(y, yv, z, was)
  }

  /** All cores, one after the other in any order. */
  method AllCores(order: seq<nat>, x: array<int>, y: array<int>, z: array<int>)
    requires Permutation(order) && 0 < |order| <= z.Length == x.Length == y.Length
    modifies z
    ensures forall i: nat :: i < z.Length ==>
              z[i] == if Covered(|order|, z.Length, i) then old(x[i]) + old(y[i]) else old(z[i])
    ensures z.Length % |order| < z.Length / |order| ==> z[..] == Added(old(z[..]), old(x[..]), old(y[..]), 0, z.Length)
  {
    ghost var was, xv, yv := z[..], x[..], y[..];
    for k := 0 to |order|
      invariant Through0(order, k, x, y, z, was, xv, yv)
    {
      NextCore0(order, k, x, y, z, was, xv, yv);
    }
    Finish0(order, z[..], was, xv, yv);
  }

  method NextCore0(order: seq<nat>, k: nat, x: array<int>, y: array<int>, z: array<int>, ghost was: seq<int>,
                   ghost xv: seq<int>, ghost yv: seq<int>)
    requires Permutation(order) && k < |order| <= z.Length == x.Length == y.Length && Through0(order, k, x, y, z, was, xv, yv)
    modifies z
    ensures Through0(order, k + 1, x, y, z, was, xv, yv)
  {
    ghost var mid, xm, ym := z[..], x[..], y[..];
    ghost var _ := Vvadd0(order[k], |order|, z.Length, x, y, z, Begin(mid, Own(Part0(order[k], |order|, z.Length))));
    Parts0AreSeparate(|order|, z.Length);
    NextCore(order, k, Parts0(|order|, z.Length), z[..], mid, was, xm, ym, xv, yv);
  }

  lemma Finish0(order: seq<nat>, z: seq<int>, was: seq<int>, x: seq<int>, y: seq<int>)
    requires Permutation(order) && 0 < |order| <= |z| && SumsAt(z, was, x, y, Reached(order, |order|, Parts0(|order|, |z|)))
    ensures forall i: nat :: i < |z| ==> z[i] == if Covered(|order|, |z|, i) then x[i] + y[i] else was[i]
    ensures |z| % |order| < |z| / |order| ==> z == Added(was, x, y, 0, |z|)
  {
    forall i: nat | i < |z|
      ensures z[i] == if Covered(|order|, |z|, i) then x[i] + y[i] else was[i]
    {
      AllReached0(order, |z|, i);
    }
    AllCoveredIff(|order|, |z|);
  }

  /** What `Vvadd0` leaves behind when core `c` runs alone. */
  ghost predicate RanAlone0(t: Trace, z: seq<int>, x: seq<int>, y: seq<int>, c: nat, ncores: nat)
    requires c < ncores <= |z|
  {
    && t.start == z && t.own == Own(Part0(c, ncores, |z|)) && LedTo(t, Mem(z, t.log))
    && SumsAt(Mem(z, t.log), z, x, y, Part0(c, ncores, |z|))
  }

  /** All cores at once, their accesses interleaved in any way: the same sums. */
  lemma Interleaved0(ts: seq<Trace>, z: seq<int>, x: seq<int>, y: seq<int>, schedule: seq<nat>)
    requires 0 < |ts| <= |z| && forall c :: 0 <= c < |ts| ==> RanAlone0(ts[c], z, x, y, c, |ts|)
    requires IsComplete(schedule, ts)
    ensures |x| == |y| == |z| && Legal(z, Accesses(ts, schedule))
    ensures forall i: nat :: i < |z| ==>
              Mem(z, Accesses(ts, schedule))[i] == if Covered(|ts|, |z|, i) then x[i] + y[i] else z[i]
  {
    assert RanAlone0(ts[0], z, x, y, 0, |ts|);
    forall c, d, p | 0 <= c < |ts| && 0 <= d < |ts| && p in ts[c].own && p in ts[d].own
      ensures c == d
    {
      NoRace(c, d, |ts|, |z|, p);
    }
    NoInterference(ts, z, schedule);
    forall i: nat | i < |z|
      ensures Mem(z, Accesses(ts, schedule))[i] == if Covered(|ts|, |z|, i) then x[i] + y[i] else z[i]
    {
      if c: nat :| c < |ts| && Writes(c, |ts|, |z|, i) {
        AllThrough(ts, z, schedule, c, i);
        assert RanAlone0(ts[c], z, x, y, c, |ts|);
      }
    }
  }

  // ----- Duff's device -----------------------------------------------------

  /** One more than the largest `size_t`. */
  const SIZE: nat := 0x1_0000_0000_0000_0000

  /** The label that `switch (count % 8)` jumps to, with the top of the loop as 8. */
  function Label(count: nat): (l: nat)
    ensures 1 <= l <= 8 && (count - l) % 8 == 0
  {
    if count % 8 == 0 then 8 else count % 8
  }

  /** The initial `c`. */
  function Passes(count: nat): nat {
    (count + 7) % SIZE / 8
  }

  /** `--c > 0` on an unsigned `c`: how often the loop body is left with `c` passes to
      go. A `c` of zero wraps around. */
  function Rounds(c: nat): nat {
    if c == 0 then SIZE else c
  }

  /** The elements that the device copies for a given count, if memory lasts. */
  function Copies(count: nat): nat {
    Label(count) + 8 * (Rounds(Passes(count)) - 1)
  }

  /** It copies what it was asked to, in an eighth of the rounds, iff that is neither
      nothing nor too much to be rounded up. */
  lemma CopiesCountIff(count: nat)
    requires count <= 0xffff_ffff_ffff_ffff
    ensures Copies(count) == count <==> 0 < count <= 0xffff_ffff_ffff_fff8
    ensures 0 < count <= 0xffff_ffff_ffff_fff8 ==> Rounds(Passes(count)) == (count + 7) / 8
  {
    if count + 7 < SIZE {
      assert (count + 7) % SIZE == count + 7;
    } else {
      RemainderIs(count + 7, SIZE, 1, count + 7 - SIZE);
      assert Copies(count) == Label(count) + 8 * (SIZE - 1) > count;
    }
  }

  /** The pointers `to`, `from1` and `from2`, as indices, until one leaves the arrays. */
  datatype Pointers = Pointers(dst: nat, from1: nat, from2: nat, ok: bool)

  /** From `start` on the sums have been copied up to the pointers. */
  ghost predicate Copied(x: array<int>, y: array<int>, z: array<int>, p: Pointers, start: nat,
                         was: seq<int>, xv: seq<int>, yv: seq<int>)
    reads x, y, z
  {
    && z.Length == x.Length == y.Length == |was| == |xv| == |yv|
    && start <= p.dst == p.from1 == p.from2 <= z.Length && (p.ok || p.dst == z.Length)
    && z[..] == Added(was, xv, yv, start, p.dst)
    && Operand(x, xv, z, was) && Operand(y, yv, z, was)
  }

  /** `k` elements further, or at the end of the arrays. */
  predicate Advanced(p: Pointers, r: Pointers, k: nat, len: nat) {
    r.dst == (if p.dst + k <= len then p.dst + k else len) && r.ok == (p.ok && p.dst + k <= len)
  }

  /** The next `k` cells, as far as there are any, are among those the trace keeps to. */
  ghost predicate Owned(t: Trace, lo: nat, k: nat, len: nat) {
    forall i: nat :: lo <= i < lo + k && i < len ==> i in t.own
  }

  /** `*to++ = *from1++ + *from2++`. */
  method CopyOne(x: array<int>, y: array<int>, z: array<int>, p: Pointers,
                 ghost start: nat, ghost was: seq<int>, ghost xv: seq<int>, ghost yv: seq<int>, ghost t: Trace)
    returns (r: Pointers, ghost t': Trace)
    requires Copied(x, y, z, p, start, was, xv, yv) && LedTo(t, z[..]) && Owned(t, p.dst, 1, z.Length)
    modifies z
    ensures Copied(x, y, z, r, start, was, xv, yv) && Advanced(p, r, 1, z.Length) && GoesOn(t, t', z[..])
  {
    t' := t;
    if p.dst < z.Length {
      t' := SumIsLogged(t', z[..], p.dst, x == z, y == z, x[p.from1] + y[p.from2]);
      z[p.dst] := x[p.from1] + y[p.from2];
      r := p.(dst := p.dst + 1, from1 := p.from1 + 1, from2 := p.from2 + 1);
    } else {
      r := p.(ok := false);
    }
  }

  /** The statement at label `at` of the loop body, when the body was entered at `entry`. */
  method Case(at: nat, entry: nat, x: array<int>, y: array<int>, z: array<int>, p: Pointers,
              ghost start: nat, ghost was: seq<int>, ghost xv: seq<int>, ghost yv: seq<int>, ghost t: Trace)
    returns (r: Pointers, ghost t': Trace)
    requires Copied(x, y, z, p, start, was, xv, yv) && LedTo(t, z[..]) && Owned(t, p.dst, if at <= entry then 1 else 0, z.Length)
    modifies z
    ensures Copied(x, y, z, r, start, was, xv, yv) && Advanced(p, r, if at <= entry then 1 else 0, z.Length)
    ensures GoesOn(t, t', z[..])
  {
    if at <= entry {
      r, t' := CopyOne(x, y, z, p, start, was, xv, yv, t);
    } else {
      r, t' := p, t;
    }
  }

  /** One pass through the eight statements of the loop body. */
  method Pass(entry: nat, x: array<int>, y: array<int>, z: array<int>, p: Pointers,
              ghost start: nat, ghost was: seq<int>, ghost xv: seq<int>, ghost yv: seq<int>, ghost t: Trace)
    returns (r: Pointers, ghost t': Trace)
    requires Copied(x, y, z, p, start, was, xv, yv) && 1 <= entry <= 8 && LedTo(t, z[..]) && Owned(t, p.dst, entry, z.Length)
    modifies z
    ensures Copied(x, y, z, r, start, was, xv, yv) && Advanced(p, r, entry, z.Length)
    ensures GoesOn(t, t', z[..])
  {
    r, t' := FourCases(8, entry, x, y, z, p, start, was, xv, yv, t);
    r, t' := FourCases(4, entry, x, y, z, r, start, was, xv, yv, t');
  }

  /** Cases 8 to 5, or 4 to 1. */
  method FourCases(top: nat, entry: nat, x: array<int>, y: array<int>, z: array<int>, p: Pointers,
                   ghost start: nat, ghost was: seq<int>, ghost xv: seq<int>, ghost yv: seq<int>, ghost t: Trace)
    returns (r: Pointers, ghost t': Trace)
    requires Copied(x, y, z, p, start, was, xv, yv) && 4 <= top
    requires LedTo(t, z[..]) && Owned(t, p.dst, Among(top, entry), z.Length)
    modifies z
    ensures Copied(x, y, z, r, start, was, xv, yv) && Advanced(p, r, Among(top, entry), z.Length)
    ensures GoesOn(t, t', z[..])
  {
    r, t' := Case(top, entry, x, y, z, p, start, was, xv, yv, t);
    r, t' := Case(top - 1, entry, x, y, z, r, start, was, xv, yv, t');
    r, t' := Case(top - 2, entry, x, y, z, r, start, was, xv, yv, t');
    r, t' := Case(top - 3, entry, x, y, z, r, start, was, xv, yv, t');
  }

  /** How many of the four labels from `top` down are not above `entry`. */
  function Among(top: nat, entry: nat): nat
    requires 4 <= top
  {
    if entry >= top then 4 else if entry <= top - 4 then 0 else entry - (top - 4)
  }

  /** The device, for any count: it copies `Copies(count)` elements and stops, or runs
      over the end of the arrays, which is where the model of it stops. */
  method Duff(x: array<int>, y: array<int>, z: array<int>, start: nat, count: nat, ghost t: Trace)
    returns (ok: bool, rounds: nat, ghost t': Trace)
    requires start <= z.Length == x.Length == y.Length && count < SIZE
    requires LedTo(t, z[..]) && Owned(t, start, Copies(count), z.Length)
    modifies z
    ensures GoesOn(t, t', z[..])
    ensures ok <==> start + Copies(count) <= z.Length
    ensures z[..] == Added(old(z[..]), old(x[..]), old(y[..]), start, if ok then start + Copies(count) else z.Length)
    ensures ok ==> rounds == Rounds(Passes(count))
  {
    ghost var was, xv, yv, end := z[..], x[..], y[..], start + Copies(count);
    var p := Pointers(start, start, start, true);
    var c: nat := (count + 7) % SIZE / 8;
    var entry := Label(count);
    ok, rounds, t' := true, 0, t;
    while true
      invariant GoesOn(t, t', z[..])
      invariant c < SIZE && 1 <= entry <= 8 && p.ok && rounds + Rounds(c) == Rounds(Passes(count))
      invariant p.dst + entry + 8 * (Rounds(c) - 1) == end
      invariant Copied(x, y, z, p, start, was, xv, yv)
      decreases Rounds(c)
    {
      p, t' := Pass(entry, x, y, z, p, start, was, xv, yv, t');
      if !p.ok {
        return false, rounds, t';
      }
      entry, c, rounds := 8, if c == 0 then SIZE - 1 else c - 1, rounds + 1;
      if c == 0 {
        break;
      }
    }
  }

  /** Fine exactly if there is something to do for each core; otherwise everything was
      overwritten before the first access behind the arrays. */
  ghost predicate Done3(ok: bool, z: seq<int>, was: seq<int>, x: seq<int>, y: seq<int>, coreid: nat, ncores: nat)
    requires coreid < ncores
  {
    && |z| == |was| == |x| == |y|
    && (ok <==> ncores <= |z|)
    && (ok ==> SumsAt(z, was, x, y, Part3(coreid, ncores, |z|)))
    && (!ok ==> z == Added(was, x, y, 0, |z|))
  }

  /** `vvadd` of vvadd3. */
  method Vvadd3(coreid: nat, ncores: nat, n: nat, x: array<int>, y: array<int>, z: array<int>, ghost t: Trace)
    returns (ok: bool, ghost t': Trace)
    requires coreid < ncores && n == x.Length == y.Length == z.Length && n + 7 < SIZE
    requires LedTo(t, z[..]) && t.own == Reach3(coreid, ncores, n)
    modifies z
    ensures GoesOn(t, t', z[..])
    ensures Done3(ok, z[..], old(z[..]), old(x[..]), old(y[..]), coreid, ncores)
  {
    var start, count := PartOf(coreid, ncores, n);
    ReachIsOwned(coreid, ncores, n, start, count, t);
    var rounds;
    ok, rounds, t' := Duff(x, y, z, start, count, t);
    BlockSums(ok, z[..], old(z[..]), old(x[..]), old(y[..]), coreid, ncores, start, count);
  }

  /** The start and the count of a core. */
  method PartOf(coreid: nat, ncores: nat, n: nat) returns (start: nat, count: nat)
    requires coreid < ncores && n + 7 < SIZE
    ensures IsPart(coreid, ncores, n, start, count)
  {
    CountIs(coreid, ncores, n);
    count := n / ncores;
    start := coreid * count;
  }

  predicate IsPart(coreid: nat, ncores: nat, n: nat, start: nat, count: nat)
    requires coreid < ncores
  {
    && start <= n && count < SIZE
    && (ncores <= n ==> start == Start(coreid, ncores, n) && start + count == Start(coreid + 1, ncores, n) && Copies(count) == count)
    && (n < ncores ==> start == 0 && Copies(count) > n)
  }

  lemma CountIs(coreid: nat, ncores: nat, n: nat)
    requires coreid < ncores && n + 7 < SIZE
    ensures coreid * (n / ncores) >= 0 && IsPart(coreid, ncores, n, coreid * (n / ncores), n / ncores)
  {
    if ncores <= n {
      NextStart(coreid, ncores, n);
      QuotientIsSmall(ncores, n);
    } else {
      RemainderIs(n, ncores, 0, n);
    }
    CopiesCountIff(n / ncores);
  }

  lemma QuotientIsSmall(ncores: nat, n: nat)
    requires 0 < ncores
    ensures 0 <= n / ncores <= n
  {
    MulMonotone(1, ncores, n / ncores);
    assert n == ncores * (n / ncores) + n % ncores;
  }

  lemma BlockSums(ok: bool, z: seq<int>, was: seq<int>, x: seq<int>, y: seq<int>, coreid: nat, ncores: nat,
                  start: nat, count: nat)
    requires coreid < ncores && |z| == |was| == |x| == |y| && IsPart(coreid, ncores, |z|, start, count)
    requires ok <==> start + Copies(count) <= |z|
    requires z == Added(was, x, y, start, if ok then start + Copies(count) else |z|)
    ensures Done3(ok, z, was, x, y, coreid, ncores)
  {
  }

  /** The cells that a core may get to: its block, or everything if it runs away. */
  ghost function Reach3(coreid: nat, ncores: nat, n: nat): iset<nat>
    requires coreid < ncores
  {
    if ncores <= n then Own(Part3(coreid, ncores, n)) else Own(Below(n))
  }

  lemma ReachIsOwned(coreid: nat, ncores: nat, n: nat, start: nat, count: nat, t: Trace)
    requires coreid < ncores && IsPart(coreid, ncores, n, start, count) && t.own == Reach3(coreid, ncores, n)
    ensures Owned(t, start, Copies(count), n)
  {
  }

  /** The block of a core. */
  ghost function Part3(coreid: nat, ncores: nat, n: nat): (r: set<nat>)
    requires coreid < ncores <= n
    ensures forall i: nat :: i in r <==> i < n && InBlock(coreid, ncores, n, i)
  {
    set i: nat | i < n && InBlock(coreid, ncores, n, i)
  }

  ghost function Parts3(ncores: nat, n: nat): nat -> set<nat> {
    (c: nat) => if c < ncores <= n then Part3(c, ncores, n) else {}
  }

  lemma Parts3AreSeparate(ncores: nat, n: nat)
    requires 0 < ncores <= n
    ensures Separate(Parts3(ncores, n), ncores)
  {
    forall c: nat, d: nat, i: nat | c < ncores && d < ncores && i in Parts3(ncores, n)(c) && i in Parts3(ncores, n)(d)
      ensures c == d
    {
      NoRace(c, d, ncores, n, i);
    }
  }

  lemma BlocksReach(order: seq<nat>, n: nat, i: nat)
    requires Permutation(order) && 0 < |order| <= n && i < n
    ensures i in Reached(order, |order|, Parts3(|order|, n)) <==> i < n - n % |order|
  {
    var ncores := |order|;
    AllReached(order, Parts3(ncores, n), i);
    StartsAreOrdered(ncores, ncores, ncores, n);
    if i < n - n % ncores {
      var c := BlockOwner(ncores, ncores, n, i);
      assert i in Parts3(ncores, n)(c);
    } else {
      forall c: nat | c < ncores
        ensures i !in Parts3(ncores, n)(c)
      {
        NextStart(c, ncores, n);
      }
    }
  }

  /** All cores, in any order: they reach what lies in whole blocks, and with fewer
      elements than cores the first one already runs over the end. */
  method AllCores3(order: seq<nat>, x: array<int>, y: array<int>, z: array<int>) returns (ok: bool)
    requires Permutation(order) && order != [] && z.Length == x.Length == y.Length && z.Length + 7 < SIZE
    modifies z
    ensures ok <==> |order| <= z.Length
    ensures z[..] == Added(old(z[..]), old(x[..]), old(y[..]), 0, if ok then z.Length - z.Length % |order| else z.Length)
  {
    ghost var was, xv, yv, ncores, n := z[..], x[..], y[..], |order|, z.Length;
    ghost var part := Parts3(ncores, n);
    if ncores <= n {
      Parts3AreSeparate(ncores, n);
    }
    ok := true;
    for k := 0 to |order|
      invariant k > 0 ==> ncores <= n
      invariant SumsAt(z[..], was, xv, yv, Reached(order, k, part))
      invariant Operand(x, xv, z, was) && Operand(y, yv, z, was)
    {
      ghost var mid, xm, ym := z[..], x[..], y[..];
      ghost var t';
      ok, t' := Vvadd3(order[k], |order|, z.Length, x, y, z, Begin(mid, Reach3(order[k], ncores, n)));
      if !ok {
        FirstFails(order, k, z[..], mid, was, xm, ym, xv, yv);
        return;
      }
      NextCore(order, k, part, z[..], mid, was, xm, ym, xv, yv);
    }
    Finish3(order, z[..], was, xv, yv);
  }

  /** If a core runs over the end, it is the first. */
  lemma FirstFails(order: seq<nat>, k: nat, z: seq<int>, mid: seq<int>, was: seq<int>, xm: seq<int>,
                   ym: seq<int>, x: seq<int>, y: seq<int>)
    requires k < |order| && order[k] < |order| && (k > 0 ==> |order| <= |z|) && Done3(false, z, mid, xm, ym, order[k], |order|)
    requires SumsAt(mid, was, x, y, Reached(order, k, Parts3(|order|, |z|)))
    requires (xm == x || (xm == mid && x == was)) && (ym == y || (ym == mid && y == was))
    ensures |order| > |z| && z == Added(was, x, y, 0, |z|)
  {
    assert mid == was;
  }

  lemma Finish3(order: seq<nat>, z: seq<int>, was: seq<int>, x: seq<int>, y: seq<int>)
    requires Permutation(order) && 0 < |order| <= |z| && SumsAt(z, was, x, y, Reached(order, |order|, Parts3(|order|, |z|)))
    ensures 0 <= |z| - |z| % |order| <= |z| && z == Added(was, x, y, 0, |z| - |z| % |order|)
  {
    StartsAreOrdered(|order|, |order|, |order|, |z|);
    forall i: nat | i < |z|
      ensures z[i] == if i < |z| - |z| % |order| then x[i] + y[i] else was[i]
    {
      BlocksReach(order, |z|, i);
    }
  }

  /** What `Vvadd3` leaves behind when core `c` runs alone and there is an element for
      every core. */
  ghost predicate RanAlone3(t: Trace, z: seq<int>, x: seq<int>, y: seq<int>, c: nat, ncores: nat)
    requires c < ncores <= |z|
  {
    && t.start == z && t.own == Own(Part3(c, ncores, |z|)) && LedTo(t, Mem(z, t.log))
    && SumsAt(Mem(z, t.log), z, x, y, Part3(c, ncores, |z|))
  }

  /** All cores at once, their accesses interleaved in any way. */
  lemma Interleaved3(ts: seq<Trace>, z: seq<int>, x: seq<int>, y: seq<int>, schedule: seq<nat>)
    requires 0 < |ts| <= |z| && forall c :: 0 <= c < |ts| ==> RanAlone3(ts[c], z, x, y, c, |ts|)
    requires IsComplete(schedule, ts)
    ensures |x| == |y| == |z| && Legal(z, Accesses(ts, schedule))
    ensures Mem(z, Accesses(ts, schedule)) == Added(z, x, y, 0, |z| - |z| % |ts|)
  {
    assert RanAlone3(ts[0], z, x, y, 0, |ts|);
    BlocksAreApart(ts, z, x, y);
    NoInterference(ts, z, schedule);
    forall i: nat | i < |z|
      ensures Mem(z, Accesses(ts, schedule))[i] == if i < |z| - |z| % |ts| then x[i] + y[i] else z[i]
    {
      Interleaved3At(ts, z, x, y, schedule, i);
    }
  }

  lemma BlocksAreApart(ts: seq<Trace>, z: seq<int>, x: seq<int>, y: seq<int>)
    requires 0 < |ts| <= |z| && forall c :: 0 <= c < |ts| ==> RanAlone3(ts[c], z, x, y, c, |ts|)
    ensures Apart(ts, z)
  {
    forall c, d, p | 0 <= c < |ts| && 0 <= d < |ts| && p in ts[c].own && p in ts[d].own
      ensures c == d
    {
      NoRace(c, d, |ts|, |z|, p);
    }
  }

  lemma Interleaved3At(ts: seq<Trace>, z: seq<int>, x: seq<int>, y: seq<int>, schedule: seq<nat>, i: nat)
    requires 0 < |ts| <= |z| && forall c :: 0 <= c < |ts| ==> RanAlone3(ts[c], z, x, y, c, |ts|)
    requires IsComplete(schedule, ts) && Apart(ts, z) && i < |z| == |x| == |y|
    ensures Mem(z, Accesses(ts, schedule))[i] == if i < |z| - |z| % |ts| then x[i] + y[i] else z[i]
  {
    StartsAreOrdered(|ts|, |ts|, |ts|, |z|);
    if i < |z| - |z| % |ts| {
      var c := BlockOwner(|ts|, |ts|, |z|, i);
      assert RanAlone3(ts[c], z, x, y, c, |ts|);
      AllThrough(ts, z, schedule, c, i);
    } else {
      BehindBlocks(|ts|, |z|, i);
      NoInterference(ts, z, schedule);
      assert forall c :: 0 <= c < |ts| ==> RanAlone3(ts[c], z, x, y, c, |ts|) && i !in ts[c].own;
    }
  }

  lemma BehindBlocks(ncores: nat, n: nat, i: nat)
    requires 0 < ncores <= n && n - n % ncores <= i
    ensures forall c: nat :: c < ncores ==> !InBlock(c, ncores, n, i)
  {
    forall c: nat | c < ncores
      ensures !InBlock(c, ncores, n, i)
    {
      NextStart(c, ncores, n);
    }
  }

  ghost predicate InSomeBlock(ncores: nat, n: nat, i: nat)
    requires 0 < ncores <= n
  {
    exists c: nat :: c < ncores && InBlock(c, ncores, n, i)
  }

  /** The result is complete exactly when the cores divide the length. */
  lemma BlocksCoverIff(ncores: nat, n: nat)
    requires 0 < ncores <= n
    ensures (forall i: nat :: i < n ==> InSomeBlock(ncores, n, i)) <==> n % ncores == 0
  {
    StartsAreOrdered(ncores, ncores, ncores, n);
    if n % ncores == 0 {
      forall i: nat | i < n
        ensures InSomeBlock(ncores, n, i)
      {
        var c := BlockOwner(ncores, ncores, n, i);
      }
    } else {
      var last: nat := n - 1;
      forall c: nat | c < ncores
        ensures !InBlock(c, ncores, n, last)
      {
        NextStart(c, ncores, n);
      }
      assert !InSomeBlock(ncores, n, last);
    }
  }
}
