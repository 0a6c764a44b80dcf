/** Square matrices in row-major order, as the kernels see them. Their element
type is modelled by the unbounded integers. */
module Matrix {

  function At(lda: nat, row: nat, col: nat): (p: nat)
    requires row < lda && col < lda
    ensures p < lda * lda
  {
    RowEnd(lda, row);
    row * lda + col
  }

  lemma RowEnd(lda: nat, row: nat)
    requires row < lda
    ensures row * lda + lda <= lda * lda
  {
    assert (row + 1) * lda <= lda * lda;
  }

  lemma AtInjective(lda: nat, row: nat, col: nat, row': nat, col': nat)
    requires row < lda && col < lda && row' < lda && col' < lda
    ensures At(lda, row, col) == At(lda, row', col') ==> row == row' && col == col'
  {
    if row < row' {
      assert (row + 1) * lda <= row' * lda;
    } else if row' < row {
      assert (row' + 1) * lda <= row * lda;
    }
  }

  /** The part of (A*B)[j][i] contributed by the inner indices lo..hi-1. */
  function Part(lda: nat, a: seq<int>, b: seq<int>, j: nat, i: nat, lo: nat, hi: nat): int
    requires |a| == |b| == lda * lda && j < lda && i < lda && lo <= hi <= lda
    decreases hi
  {
    if lo == hi then 0
    else Part(lda, a, b, j, i, lo, hi - 1) + a[At(lda, j, hi - 1)] * b[At(lda, hi - 1, i)]
  }

  function Product(lda: nat, a: seq<int>, b: seq<int>, j: nat, i: nat): int
    requires |a| == |b| == lda * lda && j < lda && i < lda
  {
    Part(lda, a, b, j, i, 0, lda)
  }

  lemma {:induction false} PartSplit(lda: nat, a: seq<int>, b: seq<int>, j: nat, i: nat, lo: nat, mid: nat, hi: nat)
    requires |a| == |b| == lda * lda && j < lda && i < lda && lo <= mid <= hi <= lda
    ensures Part(lda, a, b, j, i, lo, hi) == Part(lda, a, b, j, i, lo, mid) + Part(lda, a, b, j, i, mid, hi)
    decreases hi
  {
    if mid < hi {
      PartSplit(lda, a, b, j, i, lo, mid, hi - 1);
    }
  }

  ghost predicate Sizes(lda: nat, a: seq<int>, b: seq<int>, c: seq<int>) {
    |a| == |b| == |c| == lda * lda
  }

  /** The cells of rows j0 to j1, the latter not included, are in `own`. */
  ghost predicate RowsOwned(lda: nat, j0: nat, j1: nat, own: iset<nat>) {
    forall row: nat, col: nat :: j0 <= row < j1 && row < lda && col < lda ==> At(lda, row, col) in own
  }

  /** `c'` is `c` plus the part lo..hi-1 of A*B on the rows and columns of a
      rectangle. */
  ghost predicate AddedRect(lda: nat, a: seq<int>, b: seq<int>, c: seq<int>, c': seq<int>,
                            j0: nat, j1: nat, i0: nat, i1: nat, lo: nat, hi: nat)
    requires Sizes(lda, a, b, c) && |c'| == |c| && lo <= hi <= lda
  {
    forall j: nat, i: nat :: j < lda && i < lda ==>
      c'[At(lda, j, i)] == c[At(lda, j, i)] + if j0 <= j < j1 && i0 <= i < i1 then Part(lda, a, b, j, i, lo, hi) else 0
  }

  /** Neighbouring rectangles, side by side or one below the other. */
  lemma RectsJoin(lda: nat, a: seq<int>, b: seq<int>, c: seq<int>, c': seq<int>, c'': seq<int>,
                  j0: nat, j1: nat, j2: nat, i0: nat, i1: nat, i2: nat, lo: nat, hi: nat)
    requires Sizes(lda, a, b, c) && |c''| == |c'| == |c| && j0 <= j1 <= j2 && i0 <= i1 <= i2 && lo <= hi <= lda
    ensures AddedRect(lda, a, b, c, c', j0, j1, i0, i1, lo, hi) && AddedRect(lda, a, b, c', c'', j0, j1, i1, i2, lo, hi) ==>
              AddedRect(lda, a, b, c, c'', j0, j1, i0, i2, lo, hi)
    ensures AddedRect(lda, a, b, c, c', j0, j1, i0, i1, lo, hi) && AddedRect(lda, a, b, c', c'', j1, j2, i0, i1, lo, hi) ==>
              AddedRect(lda, a, b, c, c'', j0, j2, i0, i1, lo, hi)
  {
  }
}
