/** The block-cyclic matrix product.

A core takes every ncores-th strip of sixteen rows and walks its columns in blocks
of sixteen, starting at its own offset and wrapping modulo the matrix size until
it is back. The method is proved against the number of times the walk covers a
column; the walk covers every column once exactly if sixteen divides the size or
the matrix is a single block of eight, and otherwise adds most products twice. The
cores may run one after the other or at once, with their accesses interleaved. */
module CyclicMatmul {
  import opened Arithmetic
  import opened Collections
  import opened Interleaving
  import opened Matrix

  // ----- four rows by two columns ------------------------------------------

  /** The value of an accumulator after `n` inner indices. */
  ghost function Acc(lda: nat, a: seq<int>, b: seq<int>, c: seq<int>, j: nat, i: nat, n: nat): int
    requires Sizes(lda, a, b, c) && j < lda && i < lda && n <= lda
  {
    c[At(lda, j, i)] + Part(lda, a, b, j, i, 0, n)
  }

  /** c1 to c8: four rows by two columns. */
  datatype Eight = Eight(c1: int, c2: int, c3: int, c4: int, c5: int, c6: int, c7: int, c8: int)

  ghost predicate PairAt(lda: nat, a: seq<int>, b: seq<int>, c: seq<int>, j: nat, i: nat, n: nat, v: int, w: int)
    requires Sizes(lda, a, b, c) && j < lda && i + 2 <= lda && n <= lda
  {
    v == Acc(lda, a, b, c, j, i, n) && w == Acc(lda, a, b, c, j, i + 1, n)
  }

  ghost predicate EightAt(lda: nat, a: seq<int>, b: seq<int>, c: seq<int>, j: nat, i: nat, n: nat, e: Eight)
    requires Sizes(lda, a, b, c) && j + 4 <= lda && i + 2 <= lda && n <= lda
  {
    && PairAt(lda, a, b, c, j, i, n, e.c1, e.c2)
    && PairAt(lda, a, b, c, j + 1, i, n, e.c3, e.c4)
    && PairAt(lda, a, b, c, j + 2, i, n, e.c5, e.c6)
    && PairAt(lda, a, b, c, j + 3, i, n, e.c7, e.c8)
  }

  lemma PairStep(lda: nat, a: seq<int>, b: seq<int>, c: seq<int>, j: nat, i: nat, n: nat, v: int, w: int)
    requires Sizes(lda, a, b, c) && j < lda && i + 2 <= lda && n < lda
    requires PairAt(lda, a, b, c, j, i, n, v, w)
    ensures PairAt(lda, a, b, c, j, i, n + 1, v + a[At(lda, j, n)] * b[At(lda, n, i)],
                   w + a[At(lda, j, n)] * b[At(lda, n, i + 1)])
  {
  }

  /** The innermost body. */
  method MultiplyAdd(lda: nat, a: array<int>, b: array<int>, ghost cv: seq<int>, j: nat, i: nat, n: nat, e: Eight)
    returns (e': Eight)
    requires a.Length == b.Length == |cv| == lda * lda && j + 4 <= lda && i + 2 <= lda && n < lda
    requires EightAt(lda, a[..], b[..], cv, j, i, n, e)
    ensures EightAt(lda, a[..], b[..], cv, j, i, n + 1, e')
  {
    PairStep(lda, a[..], b[..], cv, j, i, n, e.c1, e.c2);
    PairStep(lda, a[..], b[..], cv, j + 1, i, n, e.c3, e.c4);
    PairStep(lda, a[..], b[..], cv, j + 2, i, n, e.c5, e.c6);
    PairStep(lda, a[..], b[..], cv, j + 3, i, n, e.c7, e.c8);
    var a0, a1 := a[At(lda, j, n)], a[At(lda, j + 1, n)];
    var a2, a3 := a[At(lda, j + 2, n)], a[At(lda, j + 3, n)];
    var b1, b2 := b[At(lda, n, i)], b[At(lda, n, i + 1)];
    e' := Eight(e.c1 + a0 * b1, e.c2 + a0 * b2, e.c3 + a1 * b1, e.c4 + a1 * b2,
                e.c5 + a2 * b1, e.c6 + a2 * b2, e.c7 + a3 * b1, e.c8 + a3 * b2);
  }

  /** The innermost loop. */
  method AccumulateEight(lda: nat, a: array<int>, b: array<int>, ghost cv: seq<int>, j: nat, i: nat, k: nat, start: Eight)
    returns (e: Eight)
    requires a.Length == b.Length == |cv| == lda * lda
    requires j + 4 <= lda && i + 2 <= lda && k + 8 <= lda
    requires EightAt(lda, a[..], b[..], cv, j, i, k, start)
    ensures EightAt(lda, a[..], b[..], cv, j, i, k + 8, e)
  {
    e := start;
    for x := 0 to 8
      invariant EightAt(lda, a[..], b[..], cv, j, i, k + x, e)
    {
      e := MultiplyAdd(lda, a, b, cv, j, i, k + x, e);
    }
  }

  /** The loop around it. */
  method Accumulate(lda: nat, a: array<int>, b: array<int>, ghost cv: seq<int>, j: nat, i: nat, start: Eight)
    returns (e: Eight)
    requires a.Length == b.Length == |cv| == lda * lda
    requires lda % 8 == 0 && j + 4 <= lda && i + 2 <= lda
    requires EightAt(lda, a[..], b[..], cv, j, i, 0, start)
    ensures EightAt(lda, a[..], b[..], cv, j, i, lda, e)
  {
    e := start;
    var k := 0;
    while k < lda
      invariant k <= lda && k % 8 == 0
      invariant EightAt(lda, a[..], b[..], cv, j, i, k, e)
    {
      EightMore(k, lda);
      e := AccumulateEight(lda, a, b, cv, j, i, k, e);
      k := k + 8;
    }
  }

  /** The record of reading the eight cells of a tile. */
  lemma EightAreLogged(t: Trace, m: seq<int>, lda: nat, j: nat, i: nat) returns (t': Trace)
    requires LedTo(t, m) && |m| == lda * lda && j + 4 <= lda && i + 2 <= lda && RowsOwned(lda, j, j + 4, t.own)
    ensures GoesOn(t, t', m)
  {
    t' := PairIsLogged(t, m, lda, j, i);
    t' := PairIsLogged(t', m, lda, j + 1, i);
    t' := PairIsLogged(t', m, lda, j + 2, i);
    t' := PairIsLogged(t', m, lda, j + 3, i);
  }

  lemma PairIsLogged(t: Trace, m: seq<int>, lda: nat, j: nat, i: nat) returns (t': Trace)
    requires LedTo(t, m) && |m| == lda * lda && j < lda && i + 2 <= lda && RowsOwned(lda, j, j + 1, t.own)
    ensures GoesOn(t, t', m)
  {
    Loads(t, m, At(lda, j, i));
    t' := Log(t, Load(At(lda, j, i), m[At(lda, j, i)]));
    Loads(t', m, At(lda, j, i + 1));
    t' := Log(t', Load(At(lda, j, i + 1), m[At(lda, j, i + 1)]));
  }

  method Tile(lda: nat, a: array<int>, b: array<int>, c: array<int>, j: nat, i: nat, ghost t: Trace)
    returns (ghost t': Trace)
    requires a.Length == b.Length == c.Length == lda * lda && c != a && c != b
    requires lda % 8 == 0 && j + 4 <= lda && i + 2 <= lda
    requires LedTo(t, c[..]) && RowsOwned(lda, j, j + 4, t.own)
    modifies c
    ensures GoesOn(t, t', c[..])
    ensures AddedRect(lda, a[..], b[..], old(c[..]), c[..], j, j + 4, i, i + 2, 0, lda)
  {
    var e := Eight(c[At(lda, j, i)], c[At(lda, j, i + 1)], c[At(lda, j + 1, i)], c[At(lda, j + 1, i + 1)],
                   c[At(lda, j + 2, i)], c[At(lda, j + 2, i + 1)], c[At(lda, j + 3, i)], c[At(lda, j + 3, i + 1)]);
    t' := EightAreLogged(t, c[..], lda, j, i);
    e := Accumulate(lda, a, b, c[..], j, i, e);
    t' := StoreEight(lda, a, b, c, j, i, e, t');
  }

  method StoreEight(lda: nat, a: array<int>, b: array<int>, c: array<int>, j: nat, i: nat, e: Eight, ghost t: Trace)
    returns (ghost t': Trace)
    requires a.Length == b.Length == c.Length == lda * lda && c != a && c != b
    requires j + 4 <= lda && i + 2 <= lda
    requires EightAt(lda, a[..], b[..], c[..], j, i, lda, e)
    requires LedTo(t, c[..]) && RowsOwned(lda, j, j + 4, t.own)
    modifies c
    ensures GoesOn(t, t', c[..])
    ensures AddedRect(lda, a[..], b[..], old(c[..]), c[..], j, j + 4, i, i + 2, 0, lda)
  {
    t' := StoreFour(lda, a, b, c, j, i, e.c1, e.c2, e.c3, e.c4, t);
    ghost var half := c[..];
    PairUntouched(lda, a[..], b[..], old(c[..]), half, j, i, j + 2, e.c5, e.c6);
    PairUntouched(lda, a[..], b[..], old(c[..]), half, j, i, j + 3, e.c7, e.c8);
    t' := StoreFour(lda, a, b, c, j + 2, i, e.c5, e.c6, e.c7, e.c8, t');
    RectsJoin(lda, a[..], b[..], old(c[..]), half, c[..], j, j + 2, j + 4, i, i + 2, i + 2, 0, lda);
  }

  lemma PairUntouched(lda: nat, a: seq<int>, b: seq<int>, c: seq<int>, c': seq<int>, j: nat, i: nat, row: nat,
                      v: int, w: int)
    requires Sizes(lda, a, b, c) && |c'| == |c| && j + 2 <= row < lda && i + 2 <= lda
    requires AddedRect(lda, a, b, c, c', j, j + 2, i, i + 2, 0, lda) && PairAt(lda, a, b, c, row, i, lda, v, w)
    ensures PairAt(lda, a, b, c', row, i, lda, v, w)
  {
  }

  method StoreFour(lda: nat, a: array<int>, b: array<int>, c: array<int>, j: nat, i: nat, v: int, w: int,
                   v': int, w': int, ghost t: Trace)
    returns (ghost t': Trace)
    requires a.Length == b.Length == c.Length == lda * lda && c != a && c != b
    requires j + 2 <= lda && i + 2 <= lda && LedTo(t, c[..]) && RowsOwned(lda, j, j + 2, t.own)
    requires PairAt(lda, a[..], b[..], c[..], j, i, lda, v, w) && PairAt(lda, a[..], b[..], c[..], j + 1, i, lda, v', w')
    modifies c
    ensures GoesOn(t, t', c[..])
    ensures AddedRect(lda, a[..], b[..], old(c[..]), c[..], j, j + 2, i, i + 2, 0, lda)
  {
    t' := StoreTwo(lda, a, b, c, j, i, v, w, t);
    ghost var half := c[..];
    assert PairAt(lda, a[..], b[..], half, j + 1, i, lda, v', w') by {
      assert half[At(lda, j + 1, i)] == old(c[..])[At(lda, j + 1, i)];
      assert half[At(lda, j + 1, i + 1)] == old(c[..])[At(lda, j + 1, i + 1)];
    }
    t' := StoreTwo(lda, a, b, c, j + 1, i, v', w', t');
    RectsJoin(lda, a[..], b[..], old(c[..]), half, c[..], j, j + 1, j + 2, i, i + 2, i + 2, 0, lda);
  }

  lemma StorePairIsLogged(t: Trace, m: seq<int>, lda: nat, j: nat, i: nat, v: int, w: int) returns (t': Trace)
    requires LedTo(t, m) && |m| == lda * lda && j < lda && i + 2 <= lda && RowsOwned(lda, j, j + 1, t.own)
    ensures GoesOn(t, t', m[At(lda, j, i) := v][At(lda, j, i + 1) := w])
  {
    Stores(t, m, At(lda, j, i), v);
    t' := Log(t, Store(At(lda, j, i), v));
    Stores(t', m[At(lda, j, i) := v], At(lda, j, i + 1), w);
    t' := Log(t', Store(At(lda, j, i + 1), w));
  }

  /** Two of the eight stores. */
  method StoreTwo(lda: nat, a: array<int>, b: array<int>, c: array<int>, j: nat, i: nat, v: int, w: int, ghost t: Trace)
    returns (ghost t': Trace)
    requires a.Length == b.Length == c.Length == lda * lda && c != a && c != b
    requires j < lda && i + 2 <= lda && LedTo(t, c[..]) && RowsOwned(lda, j, j + 1, t.own)
    requires PairAt(lda, a[..], b[..], c[..], j, i, lda, v, w)
    modifies c
    ensures GoesOn(t, t', c[..])
    ensures AddedRect(lda, a[..], b[..], old(c[..]), c[..], j, j + 1, i, i + 2, 0, lda)
  {
    t' := StorePairIsLogged(t, c[..], lda, j, i, v, w);
    c[At(lda, j, i)] := v;
    c[At(lda, j, i + 1)] := w;
    forall j': nat, i': nat | j' < lda && i' < lda
      ensures c[At(lda, j', i')] == old(c[At(lda, j', i')]) + if j' == j && i <= i' < i + 2 then Product(lda, a[..], b[..], j', i') else 0
    {
      AtInjective(lda, j', i', j, i);
      AtInjective(lda, j', i', j, i + 1);
    }
  }

  lemma BlockEnds(lda: nat, ii: nat)
    requires lda % 8 == 0 && ii % 8 == 0
    ensures ii % 2 == 0 && Min(lda, ii + 16) % 2 == 0
    ensures ii % 4 == 0 && Min(lda, ii + 16) % 4 == 0
  {
    EightTimes(ii / 8 + 2);
    EightDivides(ii);
    EightDivides(ii + 16);
    EightDivides(lda);
  }

  /** One turn of the row loop: four rows of a block. */
  method Strip(lda: nat, a: array<int>, b: array<int>, c: array<int>, j: nat, ii: nat, ghost t: Trace)
    returns (ghost t': Trace)
    requires a.Length == b.Length == c.Length == lda * lda && c != a && c != b
    requires lda % 8 == 0 && j + 4 <= lda && ii % 8 == 0 && ii < lda
    requires LedTo(t, c[..]) && RowsOwned(lda, j, j + 4, t.own)
    modifies c
    ensures GoesOn(t, t', c[..])
    ensures AddedRect(lda, a[..], b[..], old(c[..]), c[..], j, j + 4, ii, Min(lda, ii + 16), 0, lda)
  {
    var i := ii;
    ghost var end := Min(lda, ii + 16);
    BlockEnds(lda, ii);
    t' := t;
    while i < lda && i < ii + 16
      invariant ii <= i <= end && i % 2 == 0 && GoesOn(t, t', c[..])
      invariant AddedRect(lda, a[..], b[..], old(c[..]), c[..], j, j + 4, ii, i, 0, lda)
    {
      TwoMore(i, end);
      t' := NextTile(lda, a, b, c, j, ii, i, old(c[..]), t');
      i := i + 2;
    }
  }

  /** A tile to the right of what has been added to `cv`. */
  method NextTile(lda: nat, a: array<int>, b: array<int>, c: array<int>, j: nat, ghost ii: nat, i: nat,
                  ghost cv: seq<int>, ghost t: Trace)
    returns (ghost t': Trace)
    requires a.Length == b.Length == c.Length == |cv| == lda * lda && c != a && c != b
    requires lda % 8 == 0 && j + 4 <= lda && ii <= i && i + 2 <= lda
    requires LedTo(t, c[..]) && RowsOwned(lda, j, j + 4, t.own)
    requires AddedRect(lda, a[..], b[..], cv, c[..], j, j + 4, ii, i, 0, lda)
    modifies c
    ensures GoesOn(t, t', c[..])
    ensures AddedRect(lda, a[..], b[..], cv, c[..], j, j + 4, ii, i + 2, 0, lda)
  {
    ghost var before := c[..];
    t' := Tile(lda, a, b, c, j, i, t);
    RectsJoin(lda, a[..], b[..], cv, before, c[..], j, j + 4, j + 4, ii, i, i + 2, 0, lda);
  }

  /** One block of at most sixteen by sixteen. */
  method Block(lda: nat, a: array<int>, b: array<int>, c: array<int>, jj: nat, ii: nat, ghost t: Trace)
    returns (ghost t': Trace)
    requires a.Length == b.Length == c.Length == lda * lda && c != a && c != b
    requires lda % 8 == 0 && jj % 8 == 0 && jj < lda && ii % 8 == 0 && ii < lda
    requires LedTo(t, c[..]) && RowsOwned(lda, jj, jj + 16, t.own)
    modifies c
    ensures GoesOn(t, t', c[..])
    ensures AddedRect(lda, a[..], b[..], old(c[..]), c[..], jj, Min(lda, jj + 16), ii, Min(lda, ii + 16), 0, lda)
  {
    ghost var av, bv, cv, end, right := a[..], b[..], c[..], Min(lda, jj + 16), Min(lda, ii + 16);
    var j := jj;
    BlockEnds(lda, jj);
    NoRowsYet(lda, av, bv, cv, jj, ii, right);
    t' := t;
    while j < lda && j < jj + 16
      invariant jj <= j <= end && j % 4 == 0 && GoesOn(t, t', c[..])
      invariant a[..] == av && b[..] == bv
      invariant AddedRect(lda, av, bv, cv, c[..], jj, j, ii, right, 0, lda)
    {
      FourMore(j, end);
      SomeRowsOwned(lda, jj, j, j + 4, jj + 16, t.own);
      t' := NextStrip(lda, a, b, c, jj, j, ii, cv, t');
      j := j + 4;
    }
    assert j == end;
  }

  lemma SomeRowsOwned(lda: nat, j0: nat, j1: nat, j2: nat, j3: nat, own: iset<nat>)
    requires RowsOwned(lda, j0, j3, own) && j0 <= j1 && (j2 <= j3 || lda <= j3)
    ensures RowsOwned(lda, j1, j2, own)
  {
  }

  lemma NoRowsYet(lda: nat, a: seq<int>, b: seq<int>, c: seq<int>, j: nat, i0: nat, i1: nat)
    requires Sizes(lda, a, b, c)
    ensures AddedRect(lda, a, b, c, c, j, j, i0, i1, 0, lda)
  {
  }

  /** A strip below what has been added to `cv`. */
  method NextStrip(lda: nat, a: array<int>, b: array<int>, c: array<int>, ghost jj: nat, j: nat, ii: nat,
                   ghost cv: seq<int>, ghost t: Trace)
    returns (ghost t': Trace)
    requires a.Length == b.Length == c.Length == |cv| == lda * lda && c != a && c != b
    requires lda % 8 == 0 && jj <= j && j + 4 <= lda && ii % 8 == 0 && ii < lda
    requires LedTo(t, c[..]) && RowsOwned(lda, j, j + 4, t.own)
    requires AddedRect(lda, a[..], b[..], cv, c[..], jj, j, ii, Min(lda, ii + 16), 0, lda)
    modifies c
    ensures GoesOn(t, t', c[..])
    ensures AddedRect(lda, a[..], b[..], cv, c[..], jj, j + 4, ii, Min(lda, ii + 16), 0, lda)
  {
    ghost var before, end := c[..], Min(lda, ii + 16);
    t' := Strip(lda, a, b, c, j, ii, t);
    RectsJoin(lda, a[..], b[..], cv, before, c[..], jj, j, j + 4, ii, end, end, 0, lda);
  }

  // ----- the wrapping walk over the columns --------------------------------

  /** The column block of turn `t`. */
  function Turn(lda: nat, start: nat, t: nat): nat
    requires lda > 0
  {
    (start + 16 * t) % lda
  }

  /** How often the first `t` turns cover column `i`. */
  function Count(lda: nat, start: nat, t: nat, i: nat): nat
    requires lda > 0
  {
    if t == 0 then 0
    else
      var ii := Turn(lda, start, t - 1);
      Count(lda, start, t - 1, i) + if ii <= i < ii + 16 then 1 else 0
  }

  /** In units of the greatest common divisor of sixteen and the matrix size, the
      walk goes around `n` places, one or two at a time. */
  datatype Ring = Ring(bySixteen: bool, n: nat, p: nat) {
    predicate Valid() {
      n > 0 && p < n && (bySixteen || n % 2 == 1)
    }

    /** The column where place `q` starts. */
    function Column(q: nat): nat {
      if bySixteen then 16 * q else 8 * q
    }

    lemma ColumnIsAligned(q: nat)
      ensures Column(q) % 8 == 0
    {
      EightTimes(if bySixteen then 2 * q else q);
    }

    /** The place of column `i`. */
    function PlaceOf(i: nat): nat {
      if bySixteen then i / 16 else i / 8
    }

    function Lda(): nat {
      Column(n)
    }

    function Start(): nat {
      Column(p)
    }

    function Hop(): nat {
      if bySixteen then 1 else 2
    }

    /** `d` places on from place zero. */
    function Around(d: nat): (q: nat)
      requires Valid() && d < 3 * n
      ensures q < n
    {
      if d < n then d else if d < 2 * n then d - n else d - 2 * n
    }

    /** The place of turn `t`, for turns of the first two rounds. */
    function Place(t: nat): nat
      requires Valid() && t <= n
    {
      Around(p + Hop() * t)
    }

    /** The turn that visits place `q`. */
    function TurnAt(q: nat): nat
      requires Valid() && q < n
    {
      var d: nat := if q >= p then q - p else q + n - p;
      if bySixteen then d else if d % 2 == 0 then d / 2 else (d + n) / 2
    }
  }

  lemma WrapsTo(x: nat, m: nat, r: nat)
    requires r < m && (x == r || x == r + m || x == r + 2 * m)
    ensures x % m == r
  {
    RemainderIs(x, m, if x == r then 0 else if x == r + m then 1 else 2, r);
  }

  lemma AroundIs(r: Ring, d: nat)
    requires r.Valid() && d < 3 * r.n
    ensures r.Lda() > 0 && r.Column(d) % r.Lda() == r.Column(r.Around(d))
  {
    WrapsTo(r.Column(d), r.Lda(), r.Column(r.Around(d)));
  }

  lemma TurnIsPlace(r: Ring, t: nat)
    requires r.Valid() && t <= r.n
    ensures r.Lda() > 0 && Turn(r.Lda(), r.Start(), t) == r.Column(r.Place(t))
  {
    AroundIs(r, r.p + r.Hop() * t);
  }

  lemma PlaceIsTurn(r: Ring, q: nat, t: nat)
    requires r.Valid() && q < r.n && t < r.n
    ensures r.TurnAt(q) < r.n && (r.Place(t) == q <==> t == r.TurnAt(q))
  {
  }

  /** The walk is back after exactly `n` turns. */
  lemma WalkReturns(r: Ring, t: nat)
    requires r.Valid() && 0 < t <= r.n
    ensures r.Place(t) == r.p <==> t == r.n
  {
  }

  /** The places whose block contains column `i`: its own, and for blocks of two
      places the one before. */
  lemma BlockHolds(r: Ring, i: nat, q: nat)
    requires r.Valid() && i < r.Lda() && q < r.n
    ensures r.PlaceOf(i) < r.n && (i >= 8 && !r.bySixteen ==> r.PlaceOf(i) > 0)
    ensures r.Column(q) <= i < r.Column(q) + 16 <==> q == r.PlaceOf(i) || (!r.bySixteen && q + 1 == r.PlaceOf(i))
  {
  }

  /** Whether the walk has reached place `q` before turn `t`. */
  function Reached(r: Ring, q: nat, t: nat): nat
    requires r.Valid() && q < r.n
  {
    if r.TurnAt(q) < t then 1 else 0
  }

  /** The same for the place before, if blocks have two places and there is one. */
  function ReachedBefore(r: Ring, i: nat, t: nat): nat
    requires r.Valid() && i < r.Lda()
  {
    BlockHolds(r, i, 0);
    if !r.bySixteen && i >= 8 then Reached(r, r.PlaceOf(i) - 1, t) else 0
  }

  lemma {:induction false} CountIs(r: Ring, t: nat, i: nat)
    requires r.Valid() && t <= r.n && i < r.Lda()
    ensures r.PlaceOf(i) < r.n
    ensures Count(r.Lda(), r.Start(), t, i) == Reached(r, r.PlaceOf(i), t) + ReachedBefore(r, i, t)
  {
    BlockHolds(r, i, 0);
    if t > 0 {
      CountIs(r, t - 1, i);
      TurnIsPlace(r, t - 1);
      BlockHolds(r, i, r.Place(t - 1));
      ReachedStep(r, r.PlaceOf(i), t);
      ReachedBeforeStep(r, i, t);
    }
  }

  lemma ReachedStep(r: Ring, q: nat, t: nat)
    requires r.Valid() && q < r.n && 0 < t <= r.n
    ensures Reached(r, q, t) == Reached(r, q, t - 1) + if r.Place(t - 1) == q then 1 else 0
  {
    PlaceIsTurn(r, q, t - 1);
  }

  lemma ReachedBeforeStep(r: Ring, i: nat, t: nat)
    requires r.Valid() && i < r.Lda() && 0 < t <= r.n
    ensures ReachedBefore(r, i, t) ==
            ReachedBefore(r, i, t - 1) + if !r.bySixteen && r.Place(t - 1) + 1 == r.PlaceOf(i) then 1 else 0
  {
    BlockHolds(r, i, 0);
    if !r.bySixteen && i >= 8 {
      ReachedStep(r, r.PlaceOf(i) - 1, t);
    }
  }

  /** How often the whole walk covers column `i`. */
  function Cover(lda: nat, i: nat): nat {
    if lda % 16 == 0 || i < 8 then 1 else 2
  }

  function RingOf(lda: nat, start: nat): (r: Ring)
    requires lda > 0 && lda % 8 == 0 && start < lda && start % 16 == 0
    ensures r.Valid() && r.Lda() == lda && r.Start() == start && (r.bySixteen <==> lda % 16 == 0)
  {
    if lda % 16 == 0 then Ring(true, lda / 16, start / 16) else Ring(false, lda / 8, start / 8)
  }

  lemma WalkCovers(r: Ring, i: nat)
    requires r.Valid() && i < r.Lda()
    ensures Count(r.Lda(), r.Start(), r.n, i) == if r.bySixteen || i < 8 then 1 else 2
  {
    CountIs(r, r.n, i);
    PlaceIsTurn(r, r.PlaceOf(i), 0);
    BlockHolds(r, i, 0);
    if !r.bySixteen && i >= 8 {
      PlaceIsTurn(r, r.PlaceOf(i) - 1, 0);
    }
  }

  /** Every column is covered once exactly for these sizes. */
  lemma CoverIsOneIff(lda: nat)
    requires lda % 8 == 0
    ensures (forall i: nat :: i < lda ==> Cover(lda, i) == 1) <==> lda % 16 == 0 || lda == 8
  {
    if lda % 16 != 0 && lda != 8 {
      assert Cover(lda, 8) == 2;
    }
  }

  // ----- one core ----------------------------------------------------------

  /** k times p */
  function Times(k: nat, p: int): int {
    if k == 0 then 0 else Times(k - 1, p) + p
  }

  ghost predicate AddedTurns(lda: nat, a: seq<int>, b: seq<int>, c: seq<int>, c': seq<int>, j0: nat, j1: nat,
                             start: nat, t: nat)
    requires Sizes(lda, a, b, c) && |c'| == |c| && lda > 0
  {
    forall j: nat, i: nat :: j < lda && i < lda ==>
      c'[At(lda, j, i)] == c[At(lda, j, i)]
                           + if j0 <= j < j1 then Times(Count(lda, start, t, i), Product(lda, a, b, j, i)) else 0
  }

  lemma TurnAdds(lda: nat, a: seq<int>, b: seq<int>, c: seq<int>, c': seq<int>, c'': seq<int>, j0: nat, j1: nat,
                 start: nat, t: nat)
    requires Sizes(lda, a, b, c) && |c''| == |c'| == |c| && lda > 0
    requires AddedTurns(lda, a, b, c, c', j0, j1, start, t)
    requires var ii := Turn(lda, start, t);
             AddedRect(lda, a, b, c', c'', j0, j1, ii, Min(lda, ii + 16), 0, lda)
    ensures AddedTurns(lda, a, b, c, c'', j0, j1, start, t + 1)
  {
  }

  lemma PlaceStep(r: Ring, t: nat)
    requires r.Valid() && t < r.n
    ensures r.Place(t) + r.Hop() < 3 * r.n && r.Around(r.Place(t) + r.Hop()) == r.Place(t + 1)
    ensures r.Column(r.Place(t) + r.Hop()) == r.Column(r.Place(t)) + 16
  {
  }

  lemma TurnStep(r: Ring, t: nat)
    requires r.Valid() && t < r.n
    ensures r.Lda() > 0 && (16 + Turn(r.Lda(), r.Start(), t)) % r.Lda() == Turn(r.Lda(), r.Start(), t + 1)
  {
    TurnIsPlace(r, t);
    TurnIsPlace(r, t + 1);
    PlaceStep(r, t);
    AroundIs(r, r.Place(t) + r.Hop());
  }

  ghost predicate AddedCover(lda: nat, a: seq<int>, b: seq<int>, c: seq<int>, c': seq<int>, j0: nat, j1: nat)
    requires Sizes(lda, a, b, c) && |c'| == |c|
  {
    forall j: nat, i: nat :: j < lda && i < lda ==>
      c'[At(lda, j, i)] == c[At(lda, j, i)]
                           + if j0 <= j < j1 then Times(Cover(lda, i), Product(lda, a, b, j, i)) else 0
  }

  lemma WalkAddsCover(lda: nat, a: seq<int>, b: seq<int>, c: seq<int>, c': seq<int>, j0: nat, j1: nat, start: nat)
    requires Sizes(lda, a, b, c) && |c'| == |c| && lda > 0 && lda % 8 == 0 && start < lda && start % 16 == 0
    requires AddedTurns(lda, a, b, c, c', j0, j1, start, RingOf(lda, start).n)
    ensures AddedCover(lda, a, b, c, c', j0, j1)
  {
    forall i: nat | i < lda
      ensures Count(lda, start, RingOf(lda, start).n, i) == Cover(lda, i)
    {
      WalkCovers(RingOf(lda, start), i);
    }
  }

  /** The column loop: it ends when the wrapping counter is back at its start. */
  method Columns(lda: nat, a: array<int>, b: array<int>, c: array<int>, jj: nat, start: nat, ghost tr: Trace)
    returns (ghost tr': Trace)
    requires a.Length == b.Length == c.Length == lda * lda && c != a && c != b
    requires lda % 8 == 0 && jj % 8 == 0 && jj < lda && start % 16 == 0 && start < lda
    requires LedTo(tr, c[..]) && RowsOwned(lda, jj, jj + 16, tr.own)
    modifies c
    ensures GoesOn(tr, tr', c[..])
    ensures AddedCover(lda, a[..], b[..], old(c[..]), c[..], jj, Min(lda, jj + 16))
  {
    ghost var av, bv, cv := a[..], b[..], c[..];
    ghost var r, t := RingOf(lda, start), 0;
    var first, ii := true, start;
    TurnIsPlace(r, 0);
    tr' := tr;
    while ii != start || first
      invariant GoesOn(tr, tr', c[..])
      invariant t <= r.n && ii == Turn(lda, start, t) && first == (t == 0)
      invariant a[..] == av && b[..] == bv
      invariant AddedTurns(lda, av, bv, cv, c[..], jj, Min(lda, jj + 16), start, t)
      decreases r.n - t
    {
      WalkIsInside(r, t);
      assert ii % 8 == 0 && ii < lda;
      first := false;
      ghost var before := c[..];
      tr' := Block(lda, a, b, c, jj, ii, tr');
      TurnAdds(lda, av, bv, cv, before, c[..], jj, Min(lda, jj + 16), start, t);
      TurnStep(r, t);
      ii := (16 + ii) % lda;
      t := t + 1;
    }
    WalkIsInside(r, t);
    WalkAddsCover(lda, av, bv, cv, c[..], jj, Min(lda, jj + 16), start);
  }

  /** Before the end of the walk the counter is a block start other than its
      first value; at the end it is that value again. */
  lemma WalkIsInside(r: Ring, t: nat)
    requires r.Valid() && t <= r.n
    ensures r.Lda() > 0
    ensures var ii := Turn(r.Lda(), r.Start(), t);
            ii % 8 == 0 && ii < r.Lda() && (0 < t ==> (ii == r.Start() <==> t == r.n))
  {
    TurnIsPlace(r, t);
    r.ColumnIsAligned(r.Place(t));
    if t > 0 {
      WalkReturns(r, t);
    }
  }

  /** The rows of a core: every ncores-th strip of sixteen. */
  predicate Mine(coreid: nat, ncores: nat, j: nat)
    requires ncores > 0
  {
    j / 16 % ncores == coreid
  }

  ghost predicate CoreAdded(lda: nat, a: seq<int>, b: seq<int>, c: seq<int>, c': seq<int>, coreid: nat,
                            ncores: nat, end: nat)
    requires Sizes(lda, a, b, c) && |c'| == |c| && ncores > 0
  {
    forall j: nat, i: nat :: j < lda && i < lda ==>
      c'[At(lda, j, i)] == c[At(lda, j, i)]
                           + if j < end && Mine(coreid, ncores, j) then Times(Cover(lda, i), Product(lda, a, b, j, i)) else 0
  }

  /** The number of the strip that a core takes in turn `s`. */
  function StripOf(coreid: nat, ncores: nat, s: nat): (n: nat)
    ensures n >= coreid
  {
    if s == 0 then coreid else StripOf(coreid, ncores, s - 1) + ncores
  }

  lemma {:induction false} StripOfIs(coreid: nat, ncores: nat, s: nat)
    ensures StripOf(coreid, ncores, s) == coreid + s * ncores
  {
    if s > 0 {
      StripOfIs(coreid, ncores, s - 1);
      assert s * ncores == (s - 1) * ncores + ncores;
    }
  }

  /** The first row of that strip. */
  function Row(coreid: nat, ncores: nat, s: nat): (jj: nat)
    ensures jj % 8 == 0 && jj >= 16 * coreid
  {
    EightTimes(2 * StripOf(coreid, ncores, s));
    16 * StripOf(coreid, ncores, s)
  }

  lemma StripIsMine(coreid: nat, ncores: nat, s: nat, j: nat)
    requires coreid < ncores
    requires Row(coreid, ncores, s) <= j < Row(coreid, ncores, s) + 16 * ncores
    ensures Mine(coreid, ncores, j) <==> j < Row(coreid, ncores, s) + 16
  {
    StripOfIs(coreid, ncores, s);
    var first := coreid + s * ncores;
    var d := j / 16 - first;
    assert 0 <= d < ncores;
    if coreid + d < ncores {
      RemainderIs(j / 16, ncores, s, coreid + d);
    } else {
      assert (s + 1) * ncores == s * ncores + ncores;
      RemainderIs(j / 16, ncores, s + 1, coreid + d - ncores);
    }
  }

  lemma NothingBefore(coreid: nat, ncores: nat, j: nat)
    requires coreid < ncores && j < 16 * coreid
    ensures !Mine(coreid, ncores, j)
  {
    RemainderIs(j / 16, ncores, 0, j / 16);
  }

  lemma NothingAddedYet(lda: nat, a: seq<int>, b: seq<int>, c: seq<int>, coreid: nat, ncores: nat)
    requires Sizes(lda, a, b, c) && coreid < ncores
    ensures CoreAdded(lda, a, b, c, c, coreid, ncores, Row(coreid, ncores, 0))
  {
    forall j: nat | j < 16 * coreid
      ensures !Mine(coreid, ncores, j)
    {
      NothingBefore(coreid, ncores, j);
    }
  }

  lemma StripAdds(lda: nat, a: seq<int>, b: seq<int>, c: seq<int>, c': seq<int>, c'': seq<int>, coreid: nat,
                  ncores: nat, s: nat)
    requires Sizes(lda, a, b, c) && |c''| == |c'| == |c| && coreid < ncores
    requires var jj := Row(coreid, ncores, s);
             CoreAdded(lda, a, b, c, c', coreid, ncores, jj) && AddedCover(lda, a, b, c', c'', jj, Min(lda, jj + 16))
    ensures CoreAdded(lda, a, b, c, c'', coreid, ncores, Row(coreid, ncores, s + 1))
  {
    var jj := Row(coreid, ncores, s);
    forall j: nat, i: nat | j < lda && i < lda
      ensures c''[At(lda, j, i)] == c[At(lda, j, i)]
                + if j < jj + 16 * ncores && Mine(coreid, ncores, j) then Times(Cover(lda, i), Product(lda, a, b, j, i)) else 0
    {
      if jj <= j < jj + 16 * ncores {
        StripIsMine(coreid, ncores, s, j);
      }
    }
  }

  /** The cells of those rows. */
  ghost predicate OwnsItsRows(lda: nat, coreid: nat, ncores: nat, own: iset<nat>)
    requires ncores > 0
  {
    forall row: nat, col: nat :: row < lda && col < lda && Mine(coreid, ncores, row) ==> At(lda, row, col) in own
  }

  lemma StripIsOwned(lda: nat, coreid: nat, ncores: nat, s: nat, own: iset<nat>)
    requires coreid < ncores && OwnsItsRows(lda, coreid, ncores, own)
    ensures RowsOwned(lda, Row(coreid, ncores, s), Row(coreid, ncores, s) + 16, own)
  {
    forall row: nat | Row(coreid, ncores, s) <= row < Row(coreid, ncores, s) + 16
      ensures Mine(coreid, ncores, row)
    {
      MulMonotone(1, ncores, 16);
      StripIsMine(coreid, ncores, s, row);
    }
  }

  /** The kernel of one core; the trace records what it does to C. */
  method Matmul(coreid: nat, ncores: nat, lda: nat, a: array<int>, b: array<int>, c: array<int>, ghost t: Trace)
    returns (ghost t': Trace)
    requires coreid < ncores && lda % 8 == 0
    requires a.Length == b.Length == c.Length == lda * lda && c != a && c != b
    requires LedTo(t, c[..]) && OwnsItsRows(lda, coreid, ncores, t.own)
    modifies c
    ensures GoesOn(t, t', c[..])
    ensures CoreAdded(lda, a[..], b[..], old(c[..]), c[..], coreid, ncores, lda)
  {
    ghost var av, bv, cv, s := a[..], b[..], c[..], 0;
    var start := 16 * coreid;
    var jj := start;
    assert start % 16 == 0;
    NothingAddedYet(lda, av, bv, cv, coreid, ncores);
    t' := t;
    while jj < lda
      invariant GoesOn(t, t', c[..])
      invariant jj == Row(coreid, ncores, s) && jj % 8 == 0 && start <= jj
      invariant a[..] == av && b[..] == bv
      invariant CoreAdded(lda, av, bv, cv, c[..], coreid, ncores, jj)
    {
      ghost var before := c[..];
      StripIsOwned(lda, coreid, ncores, s, t.own);
      t' := Columns(lda, a, b, c, jj, start, t');
      StripAdds(lda, av, bv, cv, before, c[..], coreid, ncores, s);
      jj := jj + 16 * ncores;
      s := s + 1;
    }
  }

  // ----- all cores ---------------------------------------------------------

  /** The cores run in this order. */
  ghost predicate AllCoresAdded(lda: nat, a: seq<int>, b: seq<int>, states: seq<seq<int>>, order: seq<nat>) {
    && Permutation(order) && order != [] && |states| == |order| + 1
    && (forall k :: 0 <= k <= |order| ==> Sizes(lda, a, b, states[k]))
    && forall k :: 0 <= k < |order| ==> CoreAdded(lda, a, b, states[k], states[k + 1], order[k], |order|, lda)
  }

  /** The cores' rows partition the matrix: in whatever order they run, the owner of a
      row adds its products once, as often as the walk covers the column. */
  lemma {:induction false} RowsArePartitioned(lda: nat, a: seq<int>, b: seq<int>, states: seq<seq<int>>,
                                              order: seq<nat>, n: nat, j: nat, i: nat)
    requires AllCoresAdded(lda, a, b, states, order) && n <= |order| && j < lda && i < lda
    ensures states[n][At(lda, j, i)] ==
            states[0][At(lda, j, i)] + if j / 16 % |order| in order[..n] then Times(Cover(lda, i), Product(lda, a, b, j, i)) else 0
  {
    if n > 0 {
      RowsArePartitioned(lda, a, b, states, order, n - 1, j, i);
      assert CoreAdded(lda, a, b, states[n - 1], states[n - 1 + 1], order[n - 1], |order|, lda);
      assert order[..n] == order[..n - 1] + [order[n - 1]];
      NotYet(order, n - 1);
    }
  }

  /** Every product was added as often as its column is covered. */
  ghost predicate CoverAdded(lda: nat, a: seq<int>, b: seq<int>, c: seq<int>, c': seq<int>)
    requires Sizes(lda, a, b, c) && |c'| == |c|
  {
    forall j: nat, i: nat :: j < lda && i < lda ==>
      c'[At(lda, j, i)] == c[At(lda, j, i)] + Times(Cover(lda, i), Product(lda, a, b, j, i))
  }

  ghost predicate IsProduct(lda: nat, a: seq<int>, b: seq<int>, c: seq<int>, c': seq<int>)
    requires Sizes(lda, a, b, c) && |c'| == |c|
  {
    forall j: nat, i: nat :: j < lda && i < lda ==> c'[At(lda, j, i)] == c[At(lda, j, i)] + Product(lda, a, b, j, i)
  }

  /** The sizes for which that is right, or nothing but zeros to be added twice. */
  ghost predicate SizeIsRight(lda: nat, a: seq<int>, b: seq<int>)
    requires |a| == |b| == lda * lda
  {
    lda % 16 == 0 || lda == 8 || forall j: nat, i: nat :: j < lda && 8 <= i < lda ==> Product(lda, a, b, j, i) == 0
  }

  lemma CoverIsProductIff(lda: nat, a: seq<int>, b: seq<int>, c: seq<int>, c': seq<int>)
    requires lda % 8 == 0 && Sizes(lda, a, b, c) && |c'| == |c| && CoverAdded(lda, a, b, c, c')
    ensures IsProduct(lda, a, b, c, c') <==> SizeIsRight(lda, a, b)
  {
    forall j: nat, i: nat | j < lda && i < lda
      ensures Times(1, Product(lda, a, b, j, i)) == Product(lda, a, b, j, i)
      ensures Times(2, Product(lda, a, b, j, i)) == Product(lda, a, b, j, i) + Product(lda, a, b, j, i)
    {
    }
    if IsProduct(lda, a, b, c, c') && lda % 16 != 0 && lda != 8 {
      forall j: nat, i: nat | j < lda && 8 <= i < lda
        ensures Product(lda, a, b, j, i) == 0
      {
        assert Cover(lda, i) == 2;
      }
    }
  }

  /** C + A*B, if and only if the size is a multiple of sixteen or just eight: the
      `if` for all matrices, the `only if` for all that have a non-zero product
      behind column eight. */
  lemma AllCoresGiveProductIff(lda: nat, a: seq<int>, b: seq<int>, states: seq<seq<int>>, order: seq<nat>)
    requires lda % 8 == 0 && AllCoresAdded(lda, a, b, states, order)
    ensures IsProduct(lda, a, b, states[0], states[|order|]) <==> SizeIsRight(lda, a, b)
  {
    forall j: nat, i: nat | j < lda && i < lda
      ensures states[|order|][At(lda, j, i)] ==
              states[0][At(lda, j, i)] + Times(Cover(lda, i), Product(lda, a, b, j, i))
    {
      RowsArePartitioned(lda, a, b, states, order, |order|, j, i);
      Onto(order, j / 16 % |order|);
    }
    CoverIsProductIff(lda, a, b, states[0], states[|order|]);
  }

  // ----- all cores at once -------------------------------------------------

  /** The cells of the rows of a core. */
  ghost function ItsCells(lda: nat, coreid: nat, ncores: nat): (own: iset<nat>)
    requires ncores > 0
    ensures OwnsItsRows(lda, coreid, ncores, own)
  {
    iset row: nat, col: nat | row < lda && col < lda && Mine(coreid, ncores, row) :: At(lda, row, col)
  }

  /** What `Matmul` leaves behind when core `k` runs alone. */
  ghost predicate RanAlone(t: Trace, lda: nat, a: seq<int>, b: seq<int>, c: seq<int>, k: nat, ncores: nat)
    requires Sizes(lda, a, b, c) && ncores > 0
  {
    && t.start == c && t.own == ItsCells(lda, k, ncores) && LedTo(t, Mem(c, t.log))
    && CoreAdded(lda, a, b, c, Mem(c, t.log), k, ncores, lda)
  }

  ghost predicate AllRanAlone(ts: seq<Trace>, lda: nat, a: seq<int>, b: seq<int>, c: seq<int>)
    requires Sizes(lda, a, b, c)
  {
    ts != [] && forall k :: 0 <= k < |ts| ==> RanAlone(ts[k], lda, a, b, c, k, |ts|)
  }

  lemma CellsAreApart(ts: seq<Trace>, lda: nat, a: seq<int>, b: seq<int>, c: seq<int>)
    requires Sizes(lda, a, b, c) && AllRanAlone(ts, lda, a, b, c)
    ensures Apart(ts, c)
  {
    forall k, l, p | 0 <= k < |ts| && 0 <= l < |ts| && p in ts[k].own && p in ts[l].own
      ensures k == l
    {
      OneOwner(lda, k, l, |ts|, p);
    }
  }

  lemma OneOwner(lda: nat, k: nat, l: nat, ncores: nat, p: nat)
    requires ncores > 0 && p in ItsCells(lda, k, ncores) && p in ItsCells(lda, l, ncores)
    ensures k == l
  {
    var row: nat, col: nat :| row < lda && col < lda && Mine(k, ncores, row) && p == At(lda, row, col);
    var row': nat, col': nat :| row' < lda && col' < lda && Mine(l, ncores, row') && p == At(lda, row', col');
    AtInjective(lda, row, col, row', col');
  }

  /** All cores at once, their accesses to C interleaved in any way: what each core reads
      is what it reads alone, and the result is as before. */
  lemma InterleavedGiveProductIff(lda: nat, a: seq<int>, b: seq<int>, c: seq<int>, ts: seq<Trace>, schedule: seq<nat>)
    requires lda % 8 == 0 && Sizes(lda, a, b, c) && AllRanAlone(ts, lda, a, b, c) && IsComplete(schedule, ts)
    ensures Legal(c, Accesses(ts, schedule))
    ensures IsProduct(lda, a, b, c, Mem(c, Accesses(ts, schedule))) <==> SizeIsRight(lda, a, b)
  {
    CellsAreApart(ts, lda, a, b, c);
    NoInterference(ts, c, schedule);
    forall j: nat, i: nat | j < lda && i < lda
      ensures Mem(c, Accesses(ts, schedule))[At(lda, j, i)] == c[At(lda, j, i)] + Times(Cover(lda, i), Product(lda, a, b, j, i))
    {
      var k := j / 16 % |ts|;
      assert RanAlone(ts[k], lda, a, b, c, k, |ts|) && Mine(k, |ts|, j);
      AllThrough(ts, c, schedule, k, At(lda, j, i));
    }
    CoverIsProductIff(lda, a, b, c, Mem(c, Accesses(ts, schedule)));
  }
}
