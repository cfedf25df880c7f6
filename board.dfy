/** The 4x4 board as a row-major sequence of 16 cells: the cell in row `r`
    and column `c` sits at index `4 * r + c`. Measures over boards (sum of
    tile values, number of occupied cells, ...) are all sums of one per-cell
    quantity, written once as `Total`.
 */
module Boards {
  import opened Tiles

  /** Number of cells on the board (the side is 4). */
  const Size := 16

  /** The position (r, c) lies on the grid. */
  predicate InBounds(r: int, c: int) {
    0 <= r < 4 && 0 <= c < 4
  }

  /** A board is a row-major sequence of exactly 16 cells. */
  predicate IsBoard(b: seq<Cell>) {
    |b| == Size
  }

  /** The board with no tile on it. */
  function EmptyBoard(): (b: seq<Cell>)
    ensures IsBoard(b)
    ensures forall p :: 0 <= p < Size ==> b[p].Empty?
  {
    seq(Size, _ => Empty)
  }

  /** The empty board holds no tile: every total of a quantity that is zero
      on an empty cell is zero there. */
  lemma {:induction false} EmptyBoardTotals(f: Cell -> int, i: nat)
    requires f(Empty) == 0
    ensures TotalFrom(EmptyBoard(), f, i) == 0
    decreases Size - i
  {
    if i < Size {
      EmptyBoardTotals(f, i + 1);
    }
  }

  /** Some cell is empty. */
  predicate HasEmpty(b: seq<Cell>) {
    exists p :: 0 <= p < |b| && b[p].Empty?
  }

  /** Every tile on the board carries a tile value (a power of two, at least 2). */
  predicate AllTileValues(b: seq<Cell>) {
    forall p :: 0 <= p < |b| && b[p].Full? ==> IsTileValue(b[p].tile.value)
  }

  /** No tile on the board is marked merged. */
  predicate NoneMerged(b: seq<Cell>) {
    forall p :: 0 <= p < |b| && b[p].Full? ==> !b[p].tile.merged
  }

  /** Every tile marked merged has a value of at most `h`. */
  predicate MergedBounded(b: seq<Cell>, h: int) {
    forall p :: 0 <= p < |b| && b[p].Full? && b[p].tile.merged ==> b[p].tile.value <= h
  }

  /** Every tile not marked merged has a value of at most `bound`. */
  predicate UnmergedBounded(b: seq<Cell>, bound: int) {
    forall p :: 0 <= p < |b| && b[p].Full? && !b[p].tile.merged ==> b[p].tile.value <= bound
  }

  /** Some tile marked merged has the value `v`. */
  predicate HasMergedValue(b: seq<Cell>, v: int) {
    exists p :: 0 <= p < |b| && b[p].Full? && b[p].tile.merged && b[p].tile.value == v
  }

  // Per-cell quantities summed by `Total`.
  function CellValue(x: Cell): int { if x.Full? then x.tile.value else 0 }
  function Occupied(x: Cell): int { if x.Full? then 1 else 0 }
  function MergedOne(x: Cell): int { if x.Full? && x.tile.merged then 1 else 0 }
  function MergedValue(x: Cell): int { if x.Full? && x.tile.merged then x.tile.value else 0 }
  function CellBuildScore(x: Cell): int { if x.Full? then BuildScore(x.tile.value) else 0 }

  /** Sum of `f` over the cells of `b` from index `i` on. */
  function TotalFrom(b: seq<Cell>, f: Cell -> int, i: nat): int
    decreases |b| - i
  {
    if i >= |b| then 0 else f(b[i]) + TotalFrom(b, f, i + 1)
  }

  /** Sum of `f` over the cells of `b`. */
  function Total(b: seq<Cell>, f: Cell -> int): int {
    TotalFrom(b, f, 0)
  }

  /** Sum of all tile values. */
  function Sum(b: seq<Cell>): int { Total(b, CellValue) }

  /** Number of occupied cells. */
  function Count(b: seq<Cell>): int { Total(b, Occupied) }

  /** Number of tiles marked merged. */
  function MergedCount(b: seq<Cell>): int { Total(b, MergedOne) }

  /** Sum of the values of the tiles marked merged. */
  function MergedSum(b: seq<Cell>): int { Total(b, MergedValue) }

  /** The score that building every tile on the board out of 2s would earn. */
  function BuildTotal(b: seq<Cell>): int { Total(b, CellBuildScore) }

  /** Overwriting one cell changes a suffix total by the difference at that cell, if the suffix holds it. */
  lemma {:induction false} TotalFromUpdate(b: seq<Cell>, p: int, x: Cell, f: Cell -> int, i: nat)
    requires 0 <= p < |b|
    ensures TotalFrom(b[p := x], f, i) == TotalFrom(b, f, i) - (if i <= p then f(b[p]) - f(x) else 0)
    decreases |b| - i
  {
    if i < |b| {
      TotalFromUpdate(b, p, x, f, i + 1);
    }
  }

  /** Overwriting one cell changes a total by exactly the difference at that cell. */
  lemma TotalUpdate(b: seq<Cell>, p: int, x: Cell, f: Cell -> int)
    requires 0 <= p < |b|
    ensures Total(b[p := x], f) == Total(b, f) - f(b[p]) + f(x)
  {
    TotalFromUpdate(b, p, x, f, 0);
  }

  /** The occupied cells from index `i` on number at most the cells there,
      and fewer exactly when one of them is empty. */
  lemma {:induction false} CountFromBounds(b: seq<Cell>, i: nat)
    requires i <= |b|
    ensures 0 <= TotalFrom(b, Occupied, i) <= |b| - i
    ensures TotalFrom(b, Occupied, i) < |b| - i <==> exists p :: i <= p < |b| && b[p].Empty?
    decreases |b| - i
  {
    if i < |b| {
      CountFromBounds(b, i + 1);
    }
  }

  /** Occupied cells number at most the board size, and fewer exactly when a cell is empty. */
  lemma CountBounds(b: seq<Cell>)
    ensures 0 <= Count(b) <= |b|
    ensures Count(b) < |b| <==> HasEmpty(b)
  {
    CountFromBounds(b, 0);
  }

  /** A total of per-cell quantities between `lo` and `hi` lies between
      `lo` and `hi` times the number of cells summed. */
  lemma {:induction false} TotalFromBounds(b: seq<Cell>, f: Cell -> int, lo: int, hi: int, i: nat)
    requires i <= |b|
    requires forall p :: 0 <= p < |b| ==> lo <= f(b[p]) <= hi
    ensures (|b| - i) * lo <= TotalFrom(b, f, i) <= (|b| - i) * hi
    decreases |b| - i
  {
    if i < |b| {
      TotalFromBounds(b, f, lo, hi, i + 1);
      assert (|b| - i) * hi == hi + (|b| - (i + 1)) * hi;
      assert (|b| - i) * lo == lo + (|b| - (i + 1)) * lo;
    }
  }

  /** On a board whose tiles are all tile values of at most 2048, building
      every tile out of 2s earns between 0 and 16 * 2048 * 10. */
  lemma BuildTotalBounds(b: seq<Cell>)
    requires IsBoard(b) && AllTileValues(b)
    requires forall p :: 0 <= p < |b| && b[p].Full? ==> b[p].tile.value <= 2048
    ensures 0 <= BuildTotal(b) <= Size * 2048 * 10
  {
    forall p | 0 <= p < |b|
      ensures 0 <= CellBuildScore(b[p]) <= 2048 * 10
    {
      if b[p].Full? {
        BuildScoreBelowTarget(b[p].tile.value);
      }
    }
    TotalFromBounds(b, CellBuildScore, 0, 2048 * 10, 0);
  }

  /** Resets the merged flag of one cell's tile, as `clearMerged` does. */
  function Unmark(x: Cell): (y: Cell)
    ensures y.Empty? <==> x.Empty?
    ensures y.Full? ==> y.tile.value == x.tile.value && !y.tile.merged
  {
    if x.Full? then Full(SetMerged(x.tile, false)) else Empty
  }

  /** The board with every merged flag reset and everything else kept. */
  function ClearFlags(b: seq<Cell>): (r: seq<Cell>)
    ensures |r| == |b|
    ensures forall p :: 0 <= p < |b| ==> r[p] == Unmark(b[p])
  {
    seq(|b|, p requires 0 <= p < |b| => Unmark(b[p]))
  }

  /** A quantity that ignores the merged flag sums the same after the flags are reset. */
  lemma {:induction false} TotalClearFlags(b: seq<Cell>, f: Cell -> int, i: nat)
    requires forall x :: f(Unmark(x)) == f(x)
    ensures TotalFrom(ClearFlags(b), f, i) == TotalFrom(b, f, i)
    decreases |b| - i
  {
    if i < |b| {
      TotalClearFlags(b, f, i + 1);
    }
  }

  /** Resetting the merged flags keeps every tile and its value, leaves the
      empty cells empty, and leaves no tile marked merged. */
  lemma ClearFlagsKeepsTiles(b: seq<Cell>)
    ensures Sum(ClearFlags(b)) == Sum(b)
    ensures Count(ClearFlags(b)) == Count(b)
    ensures HasEmpty(ClearFlags(b)) <==> HasEmpty(b)
    ensures AllTileValues(b) ==> AllTileValues(ClearFlags(b))
    ensures NoneMerged(ClearFlags(b)) && MergedBounded(ClearFlags(b), 0)
    ensures forall h :: UnmergedBounded(b, h) && MergedBounded(b, h) ==> UnmergedBounded(ClearFlags(b), h)
    ensures MergedCount(ClearFlags(b)) == 0 && MergedSum(ClearFlags(b)) == 0
    ensures BuildTotal(ClearFlags(b)) == BuildTotal(b)
  {
    TotalClearFlags(b, CellValue, 0);
    TotalClearFlags(b, CellBuildScore, 0);
    TotalClearFlags(b, Occupied, 0);
    CountBounds(b);
    CountBounds(ClearFlags(b));
    NoMergedTotals(ClearFlags(b), 0);
  }

  /** Without merged tiles the merged count and the merged sum from index `i` on are zero. */
  lemma {:induction false} NoMergedTotals(b: seq<Cell>, i: nat)
    requires NoneMerged(b)
    ensures TotalFrom(b, MergedOne, i) == 0 && TotalFrom(b, MergedValue, i) == 0
    decreases |b| - i
  {
    if i < |b| {
      NoMergedTotals(b, i + 1);
    }
  }
}
