/** The order in which the triangulation pass visits the cells of an m x m x m
    block: l outermost, then w, then h innermost, each from 0 upwards. The
    functions here fold a per-cell value over that order; they know nothing
    about what the value is. */
module CellOrder {

  /** f concatenated over cells (l, w, 0) .. (l, w, h - 1). */
  function RowConcat<T>(f: (int, int, int) -> seq<T>, l: int, w: int, h: nat): seq<T> {
    if h == 0 then [] else RowConcat(f, l, w, h - 1) + f(l, w, h - 1)
  }

  /** f concatenated over the full rows (l, 0, _) .. (l, w - 1, _). */
  function SlabConcat<T>(f: (int, int, int) -> seq<T>, m: nat, l: int, w: nat): seq<T> {
    if w == 0 then [] else SlabConcat(f, m, l, w - 1) + RowConcat(f, l, w - 1, m)
  }

  /** f concatenated over the full slabs 0 .. l - 1. */
  function VolumeConcat<T>(f: (int, int, int) -> seq<T>, m: nat, l: nat): seq<T> {
    if l == 0 then [] else VolumeConcat(f, m, l - 1) + SlabConcat(f, m, l - 1, m)
  }

  /** g summed over cells (l, w, 0) .. (l, w, h - 1). */
  function RowSum(g: (int, int, int) -> nat, l: int, w: int, h: nat): nat {
    if h == 0 then 0 else RowSum(g, l, w, h - 1) + g(l, w, h - 1)
  }

  /** g summed over the full rows (l, 0, _) .. (l, w - 1, _). */
  function SlabSum(g: (int, int, int) -> nat, m: nat, l: int, w: nat): nat {
    if w == 0 then 0 else SlabSum(g, m, l, w - 1) + RowSum(g, l, w - 1, m)
  }

  /** g summed over the full slabs 0 .. l - 1. */
  function VolumeSum(g: (int, int, int) -> nat, m: nat, l: nat): nat {
    if l == 0 then 0 else VolumeSum(g, m, l - 1) + SlabSum(g, m, l - 1, m)
  }

  /** When every cell contributes three elements per unit of g, the
      concatenation over a row is three times the sum over it. */
  lemma {:induction false} RowLength<T>(f: (int, int, int) -> seq<T>, g: (int, int, int) -> nat, l: int, w: int, h: nat)
    requires forall c :: 0 <= c < h ==> |f(l, w, c)| == 3 * g(l, w, c)
    ensures |RowConcat(f, l, w, h)| == 3 * RowSum(g, l, w, h)
  {
    if h > 0 {
      RowLength(f, g, l, w, h - 1);
    }
  }

  lemma {:induction false} SlabLength<T>(f: (int, int, int) -> seq<T>, g: (int, int, int) -> nat, m: nat, l: int, w: nat)
    requires forall b, c :: 0 <= b < w && 0 <= c < m ==> |f(l, b, c)| == 3 * g(l, b, c)
    ensures |SlabConcat(f, m, l, w)| == 3 * SlabSum(g, m, l, w)
  {
    if w > 0 {
      SlabLength(f, g, m, l, w - 1);
      RowLength(f, g, l, w - 1, m);
    }
  }

  lemma {:induction false} VolumeLength<T>(f: (int, int, int) -> seq<T>, g: (int, int, int) -> nat, m: nat, l: nat)
    requires forall a, b, c :: 0 <= a < l && 0 <= b < m && 0 <= c < m ==> |f(a, b, c)| == 3 * g(a, b, c)
    ensures |VolumeConcat(f, m, l)| == 3 * VolumeSum(g, m, l)
  {
    if l > 0 {
      VolumeLength(f, g, m, l - 1);
      SlabLength(f, g, m, l - 1, m);
    }
  }

  /** A sum over a row of cells is 0 exactly when every cell contributes 0. */
  lemma {:induction false} RowSumZero(g: (int, int, int) -> nat, l: int, w: int, h: nat)
    ensures RowSum(g, l, w, h) == 0 <==> forall c :: 0 <= c < h ==> g(l, w, c) == 0
  {
    if h > 0 {
      RowSumZero(g, l, w, h - 1);
    }
  }

  lemma {:induction false} SlabSumZero(g: (int, int, int) -> nat, m: nat, l: int, w: nat)
    ensures SlabSum(g, m, l, w) == 0 <==> forall b, c :: 0 <= b < w && 0 <= c < m ==> g(l, b, c) == 0
  {
    if w > 0 {
      SlabSumZero(g, m, l, w - 1);
      RowSumZero(g, l, w - 1, m);
    }
  }

  lemma {:induction false} VolumeSumZero(g: (int, int, int) -> nat, m: nat, l: nat)
    ensures VolumeSum(g, m, l) == 0 <==> forall a, b, c :: 0 <= a < l && 0 <= b < m && 0 <= c < m ==> g(a, b, c) == 0
  {
    if l > 0 {
      VolumeSumZero(g, m, l - 1);
      SlabSumZero(g, m, l - 1, m);
    }
  }

  /** Appending the next cell's value to a partial row gives the longer row. */
  lemma RowStep<T>(prefix: seq<T>, f: (int, int, int) -> seq<T>, l: int, w: int, h: nat)
    ensures prefix + RowConcat(f, l, w, h) + f(l, w, h) == prefix + RowConcat(f, l, w, h + 1)
  {
  }

  /** Appending the next full row to a partial slab gives the longer slab. */
  lemma SlabStep<T>(prefix: seq<T>, f: (int, int, int) -> seq<T>, m: nat, l: int, w: nat)
    ensures prefix + SlabConcat(f, m, l, w) + RowConcat(f, l, w, m) == prefix + SlabConcat(f, m, l, w + 1)
  {
  }

  /** Appending the next full slab to a partial volume gives the longer volume. */
  lemma VolumeStep<T>(prefix: seq<T>, f: (int, int, int) -> seq<T>, m: nat, l: nat)
    ensures prefix + VolumeConcat(f, m, l) + SlabConcat(f, m, l, m) == prefix + VolumeConcat(f, m, l + 1)
  {
  }
}
