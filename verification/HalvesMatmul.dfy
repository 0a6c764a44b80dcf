/** The two-core product with running offsets and descending loops.

The first core walks its half of the rows upwards and replaces the index products
of B by two running offsets; the second walks its half downwards in all three
loops and computes the indices. Both split the inner index at the middle. Proved:
the offsets always are what they stand for, no access leaves the arrays, each
half is covered once, and together, in any order, interleaved in any way, or alone on
one core, they add exactly A*B. */
module HalvesMatmul {
  import opened Arithmetic
  import opened Collections
  import opened Interleaving
  import opened Matrix

  /** tempC0 to tempC7 */
  type Temps = t: seq<int> | |t| == 8 witness [0, 0, 0, 0, 0, 0, 0, 0]

  ghost predicate Shapes(lda: nat, a: array<int>, b: array<int>, c: array<int>)
    reads a, b, c
  {
    a.Length == b.Length == c.Length == lda * lda && c != a && c != b && lda % 8 == 0
  }

  // ----- eight columns -----------------------------------------------------

  /** Entry e is for column `col(e)`: upwards i + e, downwards i - e. */
  function Col(i: nat, up: bool, e: nat): int {
    if up then i + e else i - e
  }

  ghost predicate TempsAt(lda: nat, a: seq<int>, b: seq<int>, c: seq<int>, j: nat, i: nat, up: bool, lo: nat,
                          hi: nat, t: Temps)
    requires Sizes(lda, a, b, c) && j < lda && lo <= hi <= lda && (if up then i + 8 <= lda else 7 <= i < lda)
  {
    forall e: nat :: e < 8 ==>
      t[e] == c[At(lda, j, Col(i, up, e))] + Part(lda, a, b, j, Col(i, up, e), lo, hi)
  }

  lemma PartGrowsUp(lda: nat, a: seq<int>, b: seq<int>, j: nat, i: nat, lo: nat, k: nat)
    requires |a| == |b| == lda * lda && j < lda && i < lda && lo <= k && k + 2 <= lda
    ensures Part(lda, a, b, j, i, lo, k + 2) ==
            Part(lda, a, b, j, i, lo, k) + a[At(lda, j, k)] * b[At(lda, k, i)] + a[At(lda, j, k + 1)] * b[At(lda, k + 1, i)]
  {
    assert Part(lda, a, b, j, i, lo, k + 1) == Part(lda, a, b, j, i, lo, k) + a[At(lda, j, k)] * b[At(lda, k, i)];
  }

  lemma PartGrowsDown(lda: nat, a: seq<int>, b: seq<int>, j: nat, i: nat, k: nat, hi: nat)
    requires |a| == |b| == lda * lda && j < lda && i < lda && 1 <= k < hi <= lda
    ensures Part(lda, a, b, j, i, k - 1, hi) ==
            Part(lda, a, b, j, i, k + 1, hi) + a[At(lda, j, k)] * b[At(lda, k, i)] + a[At(lda, j, k - 1)] * b[At(lda, k - 1, i)]
  {
    PartSplit(lda, a, b, j, i, k - 1, k + 1, hi);
    PartGrowsUp(lda, a, b, j, i, k - 1, k - 1);
  }

  lemma StoreIsLogged(tr: Trace, m: seq<int>, p: nat, v: int) returns (tr': Trace)
    requires LedTo(tr, m) && p < |m| && p in tr.own
    ensures GoesOn(tr, tr', m[p := v])
  {
    Stores(tr, m, p, v);
    tr' := Log(tr, Store(p, v));
  }

  /** C[i + j*lda] = tempC0; C[i + j*lda + 1] = tempC1; ... or downwards. */
  method StoreTemps(lda: nat, a: array<int>, b: array<int>, c: array<int>, j: nat, i: nat, up: bool,
                    ghost lo: nat, ghost hi: nat, t: Temps,
                    ghost tr: Trace)
    returns (ghost tr': Trace)
    requires LedTo(tr, c[..]) && RowsOwned(lda, j, j + 1, tr.own)
    requires Shapes(lda, a, b, c) && j < lda && lo <= hi <= lda && (if up then i + 8 <= lda else 7 <= i < lda)
    requires TempsAt(lda, a[..], b[..], c[..], j, i, up, lo, hi, t)
    modifies c
    ensures GoesOn(tr, tr', c[..])
    ensures AddedRect(lda, a[..], b[..], old(c[..]), c[..], j, j + 1, if up then i else i - 7, if up then i + 8 else i + 1, lo, hi)
  {
    ghost var cv := c[..];
    tr' := tr;
    for e := 0 to 8
      invariant GoesOn(tr, tr', c[..])
      invariant forall d: nat :: d < e ==> c[At(lda, j, Col(i, up, d))] == t[d]
      invariant forall j': nat, i': nat :: j' < lda && i' < lda && !(j' == j && exists d: nat :: d < e && Col(i, up, d) == i') ==>
                  c[At(lda, j', i')] == cv[At(lda, j', i')]
    {
      forall j': nat, i': nat | j' < lda && i' < lda
        ensures At(lda, j', i') == At(lda, j, Col(i, up, e)) ==> j' == j && i' == Col(i, up, e)
      {
        AtInjective(lda, j', i', j, Col(i, up, e));
      }
      tr' := StoreIsLogged(tr', c[..], At(lda, j, Col(i, up, e)), t[e]);
      c[At(lda, j, Col(i, up, e))] := t[e];
    }
    forall j': nat, i': nat | j' < lda && i' < lda
      ensures c[At(lda, j', i')] == cv[At(lda, j', i')] +
                if j' == j && (if up then i <= i' < i + 8 else i - 7 <= i' < i + 1) then Part(lda, a[..], b[..], j', i', lo, hi) else 0
    {
      if j' == j && (if up then i <= i' < i + 8 else i - 7 <= i' < i + 1) {
        var d: nat := if up then i' - i else i - i';
        assert Col(i, up, d) == i';
      }
    }
  }

  /** tempC0 += tempA0*B[..] + tempA1*B[..] and so on: `x` and `y` are the eight
      cells of B in ascending order. */
  function FmaUp(t: Temps, a0: int, x: seq<int>, a1: int, y: seq<int>): (r: Temps)
    requires |x| == |y| == 8
    ensures forall e: nat :: e < 8 ==> r[e] == t[e] + (a0 * x[e] + a1 * y[e])
  {
    [t[0] + (a0 * x[0] + a1 * y[0]), t[1] + (a0 * x[1] + a1 * y[1]),
     t[2] + (a0 * x[2] + a1 * y[2]), t[3] + (a0 * x[3] + a1 * y[3]),
     t[4] + (a0 * x[4] + a1 * y[4]), t[5] + (a0 * x[5] + a1 * y[5]),
     t[6] + (a0 * x[6] + a1 * y[6]), t[7] + (a0 * x[7] + a1 * y[7])]
  }

  function FmaDown(t: Temps, a0: int, x: seq<int>, a1: int, y: seq<int>): (r: Temps)
    requires |x| == |y| == 8
    ensures forall e: nat :: e < 8 ==> r[e] == t[e] + (a0 * x[7 - e] + a1 * y[7 - e])
  {
    [t[0] + (a0 * x[7] + a1 * y[7]), t[1] + (a0 * x[6] + a1 * y[6]),
     t[2] + (a0 * x[5] + a1 * y[5]), t[3] + (a0 * x[4] + a1 * y[4]),
     t[4] + (a0 * x[3] + a1 * y[3]), t[5] + (a0 * x[2] + a1 * y[2]),
     t[6] + (a0 * x[1] + a1 * y[1]), t[7] + (a0 * x[0] + a1 * y[0])]
  }

  /** Eight neighbouring cells of row `row`. */
  function Cells(lda: nat, b: seq<int>, row: nat, i: nat): (s: seq<int>)
    requires |b| == lda * lda && row < lda && i + 8 <= lda
    ensures |s| == 8 && forall e: nat :: e < 8 ==> s[e] == b[At(lda, row, i + e)]
  {
    RowEnd(lda, row);
    b[row * lda + i..row * lda + i + 8]
  }

  /** Reading them, by way of their offset. */
  method LoadCells(lda: nat, b: array<int>, ghost row: nat, ghost i: nat, offset: nat) returns (s: seq<int>)
    requires b.Length == lda * lda && row < lda && i + 8 <= lda && offset == row * lda + i
    ensures s == Cells(lda, b[..], row, i)
  {
    RowEnd(lda, row);
    s := b[offset..offset + 8];
  }

  lemma TempsUp(lda: nat, a: seq<int>, b: seq<int>, c: seq<int>, j: nat, i: nat, lo: nat, k: nat, t: Temps,
                x: seq<int>, y: seq<int>, t': Temps)
    requires Sizes(lda, a, b, c) && j < lda && lo <= k && k + 2 <= lda && i + 8 <= lda
    requires TempsAt(lda, a, b, c, j, i, true, lo, k, t)
    requires x == Cells(lda, b, k, i) && y == Cells(lda, b, k + 1, i)
    requires forall e: nat :: e < 8 ==> t'[e] == t[e] + (a[At(lda, j, k)] * x[e] + a[At(lda, j, k + 1)] * y[e])
    ensures TempsAt(lda, a, b, c, j, i, true, lo, k + 2, t')
  {
    forall e: nat | e < 8
      ensures t'[e] == c[At(lda, j, Col(i, true, e))] + Part(lda, a, b, j, Col(i, true, e), lo, k + 2)
    {
      assert t[e] == c[At(lda, j, Col(i, true, e))] + Part(lda, a, b, j, Col(i, true, e), lo, k);
      PartGrowsUp(lda, a, b, j, i + e, lo, k);
    }
  }

  lemma TempsDown(lda: nat, a: seq<int>, b: seq<int>, c: seq<int>, j: nat, i: nat, k: nat, hi: nat, t: Temps,
                  x: seq<int>, y: seq<int>, t': Temps)
    requires Sizes(lda, a, b, c) && j < lda && 1 <= k < hi <= lda && 7 <= i < lda
    requires TempsAt(lda, a, b, c, j, i, false, k + 1, hi, t)
    requires x == Cells(lda, b, k, i - 7) && y == Cells(lda, b, k - 1, i - 7)
    requires forall e: nat :: e < 8 ==> t'[e] == t[e] + (a[At(lda, j, k)] * x[7 - e] + a[At(lda, j, k - 1)] * y[7 - e])
    ensures TempsAt(lda, a, b, c, j, i, false, k - 1, hi, t')
  {
    forall e: nat | e < 8
      ensures t'[e] == c[At(lda, j, Col(i, false, e))] + Part(lda, a, b, j, Col(i, false, e), k - 1, hi)
    {
      assert t[e] == c[At(lda, j, Col(i, false, e))] + Part(lda, a, b, j, Col(i, false, e), k + 1, hi);
      assert i - 7 + (7 - e) == i - e;
      assert x[7 - e] == b[At(lda, k, i - e)] && y[7 - e] == b[At(lda, k - 1, i - e)];
      PartGrowsDown(lda, a, b, j, i - e, k, hi);
    }
  }

  // ----- upwards -----------------------------------------------------------

  /** The body of the upward inner loop: two inner indices, through the offsets. */
  method StepUp(lda: nat, a: array<int>, b: array<int>, ghost cv: seq<int>, j: nat, i: nat, ghost lo: nat, k: nat,
                iB0: nat, iB1: nat, t: Temps)
    returns (t': Temps)
    requires a.Length == b.Length == |cv| == lda * lda && j < lda && lo <= k && k + 2 <= lda && i + 8 <= lda
    requires iB0 == k * lda + i && iB1 == (k + 1) * lda + i
    requires TempsAt(lda, a[..], b[..], cv, j, i, true, lo, k, t)
    ensures TempsAt(lda, a[..], b[..], cv, j, i, true, lo, k + 2, t')
  {
    var x := LoadCells(lda, b, k, i, iB0);
    var y := LoadCells(lda, b, k + 1, i, iB1);
    var a0, a1 := a[At(lda, j, k)], a[At(lda, j, k + 1)];
    t' := FmaUp(t, a0, x, a1, y);
    TempsUp(lda, a[..], b[..], cv, j, i, lo, k, t, x, y, t');
  }

  /** The upward inner loop: the offsets run along with the inner index. */
  method InnerUp(lda: nat, a: array<int>, b: array<int>, ghost cv: seq<int>, j: nat, i: nat, lo: nat, hi: nat,
                 offset: nat, start: Temps)
    returns (t: Temps)
    requires a.Length == b.Length == |cv| == lda * lda && j < lda && i + 8 <= lda
    requires lo <= hi <= lda && lo % 2 == 0 && hi % 2 == 0 && offset == lo * lda
    requires TempsAt(lda, a[..], b[..], cv, j, i, true, lo, lo, start)
    ensures TempsAt(lda, a[..], b[..], cv, j, i, true, lo, hi, t)
  {
    t := start;
    var iB0 := offset + i;
    var iB1 := iB0 + lda;
    var k := lo;
    RowStartIs(lda, lo);
    while k < hi
      invariant lo <= k <= hi && k % 2 == 0
      invariant iB0 == RowStart(lda, k) + i && iB1 == iB0 + lda
      invariant TempsAt(lda, a[..], b[..], cv, j, i, true, lo, k, t)
    {
      TwoMore(k, hi);
      RowStartIs(lda, k);
      RowStartIs(lda, k + 1);
      t := StepUp(lda, a, b, cv, j, i, lo, k, iB0, iB1, t);
      iB0 := iB0 + 2 * lda;
      iB1 := iB1 + 2 * lda;
      k := k + 2;
    }
  }

  /** Where row `k` starts, row by row. */
  function RowStart(lda: nat, k: nat): nat {
    if k == 0 then 0 else RowStart(lda, k - 1) + lda
  }

  lemma {:induction false} RowStartIs(lda: nat, k: nat)
    ensures RowStart(lda, k) == k * lda
  {
    if k > 0 {
      RowStartIs(lda, k - 1);
      assert k * lda == (k - 1) * lda + lda;
    }
  }

  /** The record of reading eight neighbouring cells of row `j`, upwards or downwards. */
  lemma CellsAreLogged(tr: Trace, m: seq<int>, lda: nat, j: nat, i: nat, up: bool, n: nat) returns (tr': Trace)
    requires LedTo(tr, m) && |m| == lda * lda && j < lda && n <= 8 && (if up then i + 8 <= lda else 7 <= i < lda)
    requires RowsOwned(lda, j, j + 1, tr.own)
    ensures GoesOn(tr, tr', m)
  {
    tr' := tr;
    if n > 0 {
      tr' := CellsAreLogged(tr, m, lda, j, i, up, n - 1);
      var p := At(lda, j, Col(i, up, n - 1));
      Loads(tr', m, p);
      tr' := Log(tr', Load(p, m[p]));
    }
  }

  method LoadUp(lda: nat, a: array<int>, b: array<int>, c: array<int>, j: nat, i: nat, ghost lo: nat, ghost tr: Trace)
    returns (t: Temps, ghost tr': Trace)
    requires LedTo(tr, c[..]) && RowsOwned(lda, j, j + 1, tr.own)
    requires Shapes(lda, a, b, c) && j < lda && i + 8 <= lda && lo <= lda
    ensures GoesOn(tr, tr', c[..])
    ensures TempsAt(lda, a[..], b[..], c[..], j, i, true, lo, lo, t)
  {
    tr' := CellsAreLogged(tr, c[..], lda, j, i, true, 8);
    RowEnd(lda, j);
    t := c[i + j * lda..i + j * lda + 8];
    assert t == Cells(lda, c[..], j, i);
  }

  method RowUp(lda: nat, a: array<int>, b: array<int>, c: array<int>, j: nat, lo: nat, hi: nat, offset: nat, ghost tr: Trace)
    returns (ghost tr': Trace)
    requires Shapes(lda, a, b, c) && j < lda && LedTo(tr, c[..]) && RowsOwned(lda, j, j + 1, tr.own)
    requires lo <= hi <= lda && lo % 2 == 0 && hi % 2 == 0 && offset == lo * lda
    modifies c
    ensures GoesOn(tr, tr', c[..])
    ensures AddedRect(lda, a[..], b[..], old(c[..]), c[..], j, j + 1, 0, lda, lo, hi)
  {
    ghost var av, bv, cv := a[..], b[..], c[..];
    var i := 0;
    tr' := tr;
    while i < lda
      invariant i <= lda && i % 8 == 0 && GoesOn(tr, tr', c[..])
      invariant a[..] == av && b[..] == bv
      invariant AddedRect(lda, av, bv, cv, c[..], j, j + 1, 0, i, lo, hi)
    {
      ghost var before := c[..];
      EightMore(i, lda);
      tr' := EightColumnsUp(lda, a, b, c, j, i, lo, hi, offset, tr');
      RectsJoin(lda, av, bv, cv, before, c[..], j, j + 1, j + 1, 0, i, i + 8, lo, hi);
      i := i + 8;
    }
  }

  method EightColumnsUp(lda: nat, a: array<int>, b: array<int>, c: array<int>, j: nat, i: nat, lo: nat, hi: nat,
                        offset: nat, ghost tr: Trace)
    returns (ghost tr': Trace)
    requires Shapes(lda, a, b, c) && j < lda && i + 8 <= lda && LedTo(tr, c[..]) && RowsOwned(lda, j, j + 1, tr.own)
    requires lo <= hi <= lda && lo % 2 == 0 && hi % 2 == 0 && offset == lo * lda
    modifies c
    ensures GoesOn(tr, tr', c[..])
    ensures AddedRect(lda, a[..], b[..], old(c[..]), c[..], j, j + 1, i, i + 8, lo, hi)
  {
    var t;
    t, tr' := LoadUp(lda, a, b, c, j, i, lo, tr);
    t := InnerUp(lda, a, b, c[..], j, i, lo, hi, offset, t);
    tr' := StoreTemps(lda, a, b, c, j, i, true, lo, hi, t, tr');
  }

  /** The row loop of core 0 for one half of the inner index. */
  method RowsUp(lda: nat, a: array<int>, b: array<int>, c: array<int>, lo: nat, hi: nat, offset: nat, ghost tr: Trace)
    returns (ghost tr': Trace)
    requires Shapes(lda, a, b, c) && LedTo(tr, c[..]) && RowsOwned(lda, 0, lda / 2, tr.own)
    requires lo <= hi <= lda && lo % 2 == 0 && hi % 2 == 0 && offset == lo * lda
    modifies c
    ensures GoesOn(tr, tr', c[..])
    ensures AddedRect(lda, a[..], b[..], old(c[..]), c[..], 0, lda / 2, 0, lda, lo, hi)
  {
    ghost var av, bv, cv := a[..], b[..], c[..];
    tr' := tr;
    for j := 0 to lda / 2
      invariant GoesOn(tr, tr', c[..])
      invariant a[..] == av && b[..] == bv
      invariant AddedRect(lda, av, bv, cv, c[..], 0, j, 0, lda, lo, hi)
    {
      ghost var before := c[..];
      tr' := RowUp(lda, a, b, c, j, lo, hi, offset, tr');
      RectsJoin(lda, av, bv, cv, before, c[..], 0, j, j + 1, 0, lda, lda, lo, hi);
    }
  }

  // ----- downwards ---------------------------------------------------------

  method StepDown(lda: nat, a: array<int>, b: array<int>, ghost cv: seq<int>, j: nat, i: nat, k: nat,
                  ghost hi: nat, t: Temps)
    returns (t': Temps)
    requires a.Length == b.Length == |cv| == lda * lda && j < lda && 1 <= k < hi <= lda && 7 <= i < lda
    requires TempsAt(lda, a[..], b[..], cv, j, i, false, k + 1, hi, t)
    ensures TempsAt(lda, a[..], b[..], cv, j, i, false, k - 1, hi, t')
  {
    var x := LoadCells(lda, b, k, i - 7, k * lda + (i - 7));
    var y := LoadCells(lda, b, k - 1, i - 7, (k - 1) * lda + (i - 7));
    var a0, a1 := a[At(lda, j, k)], a[At(lda, j, k - 1)];
    t' := FmaDown(t, a0, x, a1, y);
    TempsDown(lda, a[..], b[..], cv, j, i, k, hi, t, x, y, t');
  }

  lemma OneBelow(k: nat, lo: nat)
    requires k >= lo && (k + 1) % 2 == 0 && lo % 2 == 0
    ensures k >= lo + 1 && (k - 1) % 2 == 0
  {
  }

  /** The downward inner loop, from hi - 1 to lo. */
  method InnerDown(lda: nat, a: array<int>, b: array<int>, ghost cv: seq<int>, j: nat, i: nat, lo: nat, hi: nat,
                   start: Temps)
    returns (t: Temps)
    requires a.Length == b.Length == |cv| == lda * lda && j < lda && 7 <= i < lda
    requires lo <= hi <= lda && lo % 2 == 0 && hi % 2 == 0
    requires TempsAt(lda, a[..], b[..], cv, j, i, false, hi, hi, start)
    ensures TempsAt(lda, a[..], b[..], cv, j, i, false, lo, hi, t)
  {
    t := start;
    var k := hi - 1;
    while k >= lo
      invariant lo - 1 <= k < hi && (k + 1) % 2 == 0
      invariant TempsAt(lda, a[..], b[..], cv, j, i, false, k + 1, hi, t)
      decreases k + 1
    {
      OneBelow(k, lo);
      t := StepDown(lda, a, b, cv, j, i, k, hi, t);
      k := k - 2;
    }
  }

  method LoadDown(lda: nat, a: array<int>, b: array<int>, c: array<int>, j: nat, i: nat, ghost hi: nat, ghost tr: Trace)
    returns (t: Temps, ghost tr': Trace)
    requires LedTo(tr, c[..]) && RowsOwned(lda, j, j + 1, tr.own)
    requires Shapes(lda, a, b, c) && j < lda && 7 <= i < lda && hi <= lda
    ensures GoesOn(tr, tr', c[..])
    ensures TempsAt(lda, a[..], b[..], c[..], j, i, false, hi, hi, t)
  {
    tr' := CellsAreLogged(tr, c[..], lda, j, i, false, 8);
    RowEnd(lda, j);
    var x := c[i + j * lda - 7..i + j * lda + 1];
    assert x == Cells(lda, c[..], j, i - 7);
    t := [x[7], x[6], x[5], x[4], x[3], x[2], x[1], x[0]];
    forall e: nat | e < 8
      ensures t[e] == c[At(lda, j, Col(i, false, e))]
    {
      assert t[e] == x[7 - e];
      assert i - 7 + (7 - e) == i - e;
    }
  }

  method EightColumnsDown(lda: nat, a: array<int>, b: array<int>, c: array<int>, j: nat, i: nat, lo: nat,
                          hi: nat, ghost tr: Trace)
    returns (ghost tr': Trace)
    requires Shapes(lda, a, b, c) && j < lda && 7 <= i < lda && LedTo(tr, c[..]) && RowsOwned(lda, j, j + 1, tr.own)
    requires lo <= hi <= lda && lo % 2 == 0 && hi % 2 == 0
    modifies c
    ensures GoesOn(tr, tr', c[..])
    ensures AddedRect(lda, a[..], b[..], old(c[..]), c[..], j, j + 1, i - 7, i + 1, lo, hi)
  {
    var t;
    t, tr' := LoadDown(lda, a, b, c, j, i, hi, tr);
    t := InnerDown(lda, a, b, c[..], j, i, lo, hi, t);
    tr' := StoreTemps(lda, a, b, c, j, i, false, lo, hi, t, tr');
  }

  method RowDown(lda: nat, a: array<int>, b: array<int>, c: array<int>, j: nat, lo: nat, hi: nat, ghost tr: Trace)
    returns (ghost tr': Trace)
    requires Shapes(lda, a, b, c) && j < lda && LedTo(tr, c[..]) && RowsOwned(lda, j, j + 1, tr.own)
    requires lo <= hi <= lda && lo % 2 == 0 && hi % 2 == 0
    modifies c
    ensures GoesOn(tr, tr', c[..])
    ensures AddedRect(lda, a[..], b[..], old(c[..]), c[..], j, j + 1, 0, lda, lo, hi)
  {
    ghost var av, bv, cv := a[..], b[..], c[..];
    var i := lda - 1;
    tr' := tr;
    while i >= 0
      invariant GoesOn(tr, tr', c[..])
      invariant -1 <= i < lda && (i + 1) % 8 == 0
      invariant a[..] == av && b[..] == bv
      invariant AddedRect(lda, av, bv, cv, c[..], j, j + 1, i + 1, lda, lo, hi)
      decreases i + 1
    {
      ghost var before := c[..];
      SevenBelow(i);
      tr' := EightColumnsDown(lda, a, b, c, j, i, lo, hi, tr');
      RectsJoinFront(lda, av, bv, cv, before, c[..], j, j + 1, j + 1, i - 7, i + 1, lda, lo, hi);
      i := i - 8;
    }
  }

  lemma SevenBelow(i: nat)
    requires (i + 1) % 8 == 0
    ensures i >= 7 && (i - 7) % 8 == 0
  {
  }

  /** As RectsJoin, with the rectangle in front added last. */
  lemma RectsJoinFront(lda: nat, a: seq<int>, b: seq<int>, c: seq<int>, c': seq<int>, c'': seq<int>,
                       j0: nat, j1: nat, j2: nat, i0: nat, i1: nat, i2: nat, lo: nat, hi: nat)
    requires Sizes(lda, a, b, c) && |c''| == |c'| == |c| && j0 <= j1 <= j2 && i0 <= i1 <= i2 && lo <= hi <= lda
    ensures AddedRect(lda, a, b, c, c', j0, j1, i1, i2, lo, hi) && AddedRect(lda, a, b, c', c'', j0, j1, i0, i1, lo, hi) ==>
              AddedRect(lda, a, b, c, c'', j0, j1, i0, i2, lo, hi)
    ensures AddedRect(lda, a, b, c, c', j1, j2, i0, i1, lo, hi) && AddedRect(lda, a, b, c', c'', j0, j1, i0, i1, lo, hi) ==>
              AddedRect(lda, a, b, c, c'', j0, j2, i0, i1, lo, hi)
  {
  }

  /** The row loop of core 1 for one half of the inner index. */
  method RowsDown(lda: nat, a: array<int>, b: array<int>, c: array<int>, lo: nat, hi: nat, ghost tr: Trace)
    returns (ghost tr': Trace)
    requires Shapes(lda, a, b, c) && LedTo(tr, c[..]) && RowsOwned(lda, lda / 2, lda, tr.own)
    requires lo <= hi <= lda && lo % 2 == 0 && hi % 2 == 0
    modifies c
    ensures GoesOn(tr, tr', c[..])
    ensures AddedRect(lda, a[..], b[..], old(c[..]), c[..], lda / 2, lda, 0, lda, lo, hi)
  {
    ghost var av, bv, cv := a[..], b[..], c[..];
    var j := lda - 1;
    tr' := tr;
    while j >= lda / 2
      invariant GoesOn(tr, tr', c[..])
      invariant lda / 2 - 1 <= j < lda
      invariant a[..] == av && b[..] == bv
      invariant AddedRect(lda, av, bv, cv, c[..], j + 1, lda, 0, lda, lo, hi)
    {
      ghost var before := c[..];
      tr' := RowDown(lda, a, b, c, j, lo, hi, tr');
      RectsJoinFront(lda, av, bv, cv, before, c[..], j, j + 1, lda, 0, lda, lda, lo, hi);
      j := j - 1;
    }
  }

  // ----- a core, and both --------------------------------------------------

  /** The rows a core is responsible for. */
  function RowLo(lda: nat, coreid: nat): nat {
    if coreid == 0 then 0 else lda / 2
  }

  function RowHi(lda: nat, coreid: nat, ncores: nat): nat {
    if coreid > 1 then lda / 2 else if coreid == 1 || ncores == 1 then lda else lda / 2
  }

  lemma PartsJoin(lda: nat, a: seq<int>, b: seq<int>, c: seq<int>, c': seq<int>, c'': seq<int>,
                  j0: nat, j1: nat, lo: nat, mid: nat, hi: nat)
    requires Sizes(lda, a, b, c) && |c''| == |c'| == |c| && lo <= mid <= hi <= lda
    ensures AddedRect(lda, a, b, c, c', j0, j1, 0, lda, lo, mid) && AddedRect(lda, a, b, c', c'', j0, j1, 0, lda, mid, hi) ==>
              AddedRect(lda, a, b, c, c'', j0, j1, 0, lda, lo, hi)
    ensures AddedRect(lda, a, b, c, c', j0, j1, 0, lda, mid, hi) && AddedRect(lda, a, b, c', c'', j0, j1, 0, lda, lo, mid) ==>
              AddedRect(lda, a, b, c, c'', j0, j1, 0, lda, lo, hi)
  {
    forall j: nat, i: nat | j < lda && i < lda
      ensures Part(lda, a, b, j, i, lo, hi) == Part(lda, a, b, j, i, lo, mid) + Part(lda, a, b, j, i, mid, hi)
    {
      PartSplit(lda, a, b, j, i, lo, mid, hi);
    }
  }

  lemma HalfTimes(h: nat, m: nat)
    ensures 2 * h * m / 2 == h * m
  {
    assert 2 * h * m == 2 * (h * m);
  }

  lemma Halves(lda: nat)
    requires lda % 8 == 0
    ensures lda / 2 * 2 == lda && lda / 2 % 2 == 0 && lda % 2 == 0
  {
  }

  /** The bounds of the halves as the loops compute them. */
  lemma Bounds(lda: nat)
    requires lda % 8 == 0
    ensures 0 * lda / 2 == 0 && 1 * lda / 2 == lda / 2 && 2 * lda / 2 == lda
    ensures lda / 2 % 2 == 0 && lda % 2 == 0 && lda / 2 <= lda
    ensures 0 * lda * lda / 2 == 0 && 1 * lda * lda / 2 == lda / 2 * lda
  {
    Halves(lda);
    HalfTimes(lda / 2, lda);
  }

  method LowerHalf(lda: nat, a: array<int>, b: array<int>, c: array<int>, ghost tr: Trace) returns (ghost tr': Trace)
    requires Shapes(lda, a, b, c) && LedTo(tr, c[..]) && RowsOwned(lda, 0, lda / 2, tr.own)
    modifies c
    ensures GoesOn(tr, tr', c[..])
    ensures AddedRect(lda, a[..], b[..], old(c[..]), c[..], 0, lda / 2, 0, lda, 0, lda)
  {
    Bounds(lda);
    tr' := RowsUp(lda, a, b, c, 0 * lda / 2, 1 * lda / 2, 0 * lda * lda / 2, tr);
    ghost var half := c[..];
    tr' := RowsUp(lda, a, b, c, 1 * lda / 2, 2 * lda / 2, 1 * lda * lda / 2, tr');
    PartsJoin(lda, a[..], b[..], old(c[..]), half, c[..], 0, lda / 2, 0, lda / 2, lda);
  }

  method UpperHalf(lda: nat, a: array<int>, b: array<int>, c: array<int>, ghost tr: Trace) returns (ghost tr': Trace)
    requires Shapes(lda, a, b, c) && LedTo(tr, c[..]) && RowsOwned(lda, lda / 2, lda, tr.own)
    modifies c
    ensures GoesOn(tr, tr', c[..])
    ensures AddedRect(lda, a[..], b[..], old(c[..]), c[..], lda / 2, lda, 0, lda, 0, lda)
  {
    Bounds(lda);
    tr' := RowsDown(lda, a, b, c, 1 * lda / 2, 2 * lda / 2, tr);
    ghost var half := c[..];
    tr' := RowsDown(lda, a, b, c, 0 * lda / 2, 1 * lda / 2, tr');
    PartsJoin(lda, a[..], b[..], old(c[..]), half, c[..], lda / 2, lda, 0, lda / 2, lda);
  }

  /** The kernel of one core; the trace records what it does to C. */
  method Matmul(coreid: nat, ncores: nat, lda: nat, a: array<int>, b: array<int>, c: array<int>,
                ghost tr: Trace)
    returns (ghost tr': Trace)
    requires Shapes(lda, a, b, c) && coreid < ncores
    requires LedTo(tr, c[..]) && RowsOwned(lda, RowLo(lda, coreid), RowHi(lda, coreid, ncores), tr.own)
    modifies c
    ensures GoesOn(tr, tr', c[..])
    ensures AddedRect(lda, a[..], b[..], old(c[..]), c[..], RowLo(lda, coreid), RowHi(lda, coreid, ncores), 0, lda, 0, lda)
  {
    tr' := tr;
    if coreid > 1 {
      return;
    }
    ghost var half := c[..];
    if coreid == 0 {
      tr' := LowerHalf(lda, a, b, c, tr');
      half := c[..];
    }
    if coreid == 1 || ncores == 1 {
      tr' := UpperHalf(lda, a, b, c, tr');
      RectsJoin(lda, a[..], b[..], old(c[..]), half, c[..], 0, lda / 2, lda, 0, lda, lda, 0, lda);
    }
  }

  /** The cores run in this order. */
  ghost predicate AllCoresAdded(lda: nat, a: seq<int>, b: seq<int>, states: seq<seq<int>>, order: seq<nat>) {
    && Permutation(order) && order != [] && |states| == |order| + 1
    && (forall k :: 0 <= k <= |order| ==> Sizes(lda, a, b, states[k]))
    && forall k :: 0 <= k < |order| ==>
         AddedRect(lda, a, b, states[k], states[k + 1], RowLo(lda, order[k]), RowHi(lda, order[k], |order|), 0, lda, 0, lda)
  }

  /** The core that row `j` belongs to. */
  function Owner(lda: nat, ncores: nat, j: nat): (c: nat)
    requires ncores > 0
    ensures c < ncores
    ensures j < lda ==> forall d: nat :: d < ncores ==> (RowLo(lda, d) <= j < RowHi(lda, d, ncores) <==> d == c)
  {
    if j < lda / 2 || ncores == 1 then 0 else 1
  }

  /** Every row gets the product from its owner, in whatever order the cores run. */
  lemma {:induction false} OwnerAdds(lda: nat, a: seq<int>, b: seq<int>, states: seq<seq<int>>, order: seq<nat>,
                                     n: nat, j: nat, i: nat)
    requires AllCoresAdded(lda, a, b, states, order) && n <= |order| && j < lda && i < lda
    ensures states[n][At(lda, j, i)] ==
            states[0][At(lda, j, i)] + if Owner(lda, |order|, j) in order[..n] then Product(lda, a, b, j, i) else 0
  {
    if n > 0 {
      var c := order[n - 1];
      OwnerAdds(lda, a, b, states, order, n - 1, j, i);
      assert AddedRect(lda, a, b, states[n - 1], states[n - 1 + 1], RowLo(lda, c), RowHi(lda, c, |order|), 0, lda, 0, lda);
      assert order[..n] == order[..n - 1] + [c];
      NotYet(order, n - 1);
    }
  }

  /** Whatever the number of cores and their order, all together add A*B once. */
  lemma AllCoresGiveProduct(lda: nat, a: seq<int>, b: seq<int>, states: seq<seq<int>>, order: seq<nat>)
    requires AllCoresAdded(lda, a, b, states, order)
    ensures forall j: nat, i: nat :: j < lda && i < lda ==>
              states[|order|][At(lda, j, i)] == states[0][At(lda, j, i)] + Product(lda, a, b, j, i)
  {
    forall j: nat, i: nat | j < lda && i < lda
      ensures states[|order|][At(lda, j, i)] == states[0][At(lda, j, i)] + Product(lda, a, b, j, i)
    {
      OwnerAdds(lda, a, b, states, order, |order|, j, i);
      Onto(order, Owner(lda, |order|, j));
    }
  }

  // ----- both at once ------------------------------------------------------

  /** The cells of the rows of a core. */
  ghost function ItsCells(lda: nat, coreid: nat, ncores: nat): (own: iset<nat>)
    ensures RowsOwned(lda, RowLo(lda, coreid), RowHi(lda, coreid, ncores), own)
  {
    iset row: nat, col: nat | row < lda && col < lda && RowLo(lda, coreid) <= row < RowHi(lda, coreid, ncores) :: At(lda, row, col)
  }

  /** What `Matmul` leaves behind when core `k` runs alone. */
  ghost predicate RanAlone(t: Trace, lda: nat, a: seq<int>, b: seq<int>, c: seq<int>, k: nat, ncores: nat)
    requires Sizes(lda, a, b, c)
  {
    && t.start == c && t.own == ItsCells(lda, k, ncores) && LedTo(t, Mem(c, t.log))
    && AddedRect(lda, a, b, c, Mem(c, t.log), RowLo(lda, k), RowHi(lda, k, ncores), 0, lda, 0, lda)
  }

  ghost predicate AllRanAlone(ts: seq<Trace>, lda: nat, a: seq<int>, b: seq<int>, c: seq<int>)
    requires Sizes(lda, a, b, c)
  {
    ts != [] && forall k :: 0 <= k < |ts| ==> RanAlone(ts[k], lda, a, b, c, k, |ts|)
  }

  lemma CellsAreApart(ts: seq<Trace>, lda: nat, a: seq<int>, b: seq<int>, c: seq<int>)
    requires Sizes(lda, a, b, c) && AllRanAlone(ts, lda, a, b, c)
    ensures Apart(ts, c)
  {
    forall k, l, p | 0 <= k < |ts| && 0 <= l < |ts| && p in ts[k].own && p in ts[l].own
      ensures k == l
    {
      OneOwner(lda, k, l, |ts|, p);
    }
  }

  lemma OneOwner(lda: nat, k: nat, l: nat, ncores: nat, p: nat)
    requires k < ncores && l < ncores && p in ItsCells(lda, k, ncores) && p in ItsCells(lda, l, ncores)
    ensures k == l
  {
    var row: nat, col: nat :| row < lda && col < lda && RowLo(lda, k) <= row < RowHi(lda, k, ncores) && p == At(lda, row, col);
    var row': nat, col': nat :| row' < lda && col' < lda && RowLo(lda, l) <= row' < RowHi(lda, l, ncores) && p == At(lda, row', col');
    AtInjective(lda, row, col, row', col');
    assert k == Owner(lda, ncores, row) == l;
  }

  /** All cores at once, their accesses to C interleaved in any way: A*B is added once. */
  lemma InterleavedGiveProduct(lda: nat, a: seq<int>, b: seq<int>, c: seq<int>, ts: seq<Trace>, schedule: seq<nat>)
    requires Sizes(lda, a, b, c) && AllRanAlone(ts, lda, a, b, c) && IsComplete(schedule, ts)
    ensures Legal(c, Accesses(ts, schedule))
    ensures forall j: nat, i: nat :: j < lda && i < lda ==>
              Mem(c, Accesses(ts, schedule))[At(lda, j, i)] == c[At(lda, j, i)] + Product(lda, a, b, j, i)
  {
    CellsAreApart(ts, lda, a, b, c);
    NoInterference(ts, c, schedule);
    forall j: nat, i: nat | j < lda && i < lda
      ensures Mem(c, Accesses(ts, schedule))[At(lda, j, i)] == c[At(lda, j, i)] + Product(lda, a, b, j, i)
    {
      var k := Owner(lda, |ts|, j);
      assert RanAlone(ts[k], lda, a, b, c, k, |ts|);
      AllThrough(ts, c, schedule, k, At(lda, j, i));
    }
  }
}
