/** Tiles and the cells of the grid.

    A tile carries its value and a per-move `merged` flag. Tiles are never
    shared between cells (a slide empties the cell it leaves), so a tile is
    modelled as a value and the operations that update a tile in place return
    the updated tile instead.
 */
module Tiles {

  /** A tile: its value and whether it already merged during the current move. */
  datatype Tile = Tile(value: int, merged: bool)

  /** A cell of the grid: empty (a null reference) or holding one tile. */
  datatype Cell = Empty | Full(tile: Tile)

  /** `n` is a power of two (1, 2, 4, 8, ...). */
  predicate IsPow2(n: int)
    decreases n
  {
    n == 1 || (n >= 2 && n % 2 == 0 && IsPow2(n / 2))
  }

  /** The values a tile may carry during a game: powers of two from 2 upwards. */
  predicate IsTileValue(n: int) {
    n >= 2 && IsPow2(n)
  }

  /** New tiles start unmerged. */
  function NewTile(val: int): (t: Tile)
    ensures t.value == val && !t.merged
  {
    Tile(val, false)
  }

  /** Sets the merged flag, leaving the value alone. */
  function SetMerged(t: Tile, m: bool): (r: Tile)
    ensures r.value == t.value && r.merged == m
  {
    t.(merged := m)
  }

  /** `t` may absorb the tile in `other`: neither has merged during this move,
      `other` holds a tile, and the values agree. */
  predicate CanMergeWith(t: Tile, other: Cell) {
    !t.merged && other.Full? && !other.tile.merged && t.value == other.tile.value
  }

  /** Absorbs `other` into `t`: on success the returned tile has twice the
      value and is marked merged, and the new value is returned beside it;
      otherwise `t` is returned unchanged with the failure value -1. */
  function MergeWith(t: Tile, other: Cell): (r: (Tile, int))
    ensures CanMergeWith(t, other) ==> r.0 == Tile(2 * t.value, true) && r.1 == r.0.value
    ensures !CanMergeWith(t, other) ==> r.0 == t && r.1 == -1
  {
    if CanMergeWith(t, other) then
      var doubled := t.(value := t.value * 2, merged := true);
      (doubled, doubled.value)
    else
      (t, -1)
  }

  /** Merge eligibility is symmetric between two occupied cells. */
  lemma CanMergeSymmetric(a: Tile, b: Tile)
    ensures CanMergeWith(a, Full(b)) <==> CanMergeWith(b, Full(a))
  {
  }

  /** A tile that has merged during this move can take part in no further
      merge, neither as the absorbing tile nor as the absorbed one. */
  lemma MergedTileIsFinal(t: Tile, other: Cell, u: Tile)
    requires t.merged
    ensures !CanMergeWith(t, other)
    ensures !CanMergeWith(u, Full(t))
  {
  }

  /** A successful merge yields a tile that is itself final for the move,
      neither absorbing another tile nor being absorbed, and a failed merge
      changes nothing. */
  lemma MergeResultIsFinal(t: Tile, other: Cell, x: Cell, u: Tile)
    ensures var (m, v) := MergeWith(t, other);
            && (v != -1 ==> !CanMergeWith(m, x) && !CanMergeWith(u, Full(m)))
            && (v == -1 ==> m == t)
  {
  }

  /** Doubling keeps a tile value a power of two, from 2 upwards. */
  lemma DoubleIsTileValue(n: int)
    requires IsTileValue(n)
    ensures IsTileValue(2 * n)
  {
    assert (2 * n) / 2 == n;
  }

  /** A merge of two tiles whose values are tile values yields a tile value,
      strictly greater than the one it replaces. */
  lemma MergeKeepsTileValue(t: Tile, other: Cell)
    requires IsTileValue(t.value)
    requires CanMergeWith(t, other)
    ensures IsTileValue(MergeWith(t, other).0.value)
    ensures MergeWith(t, other).1 > t.value
  {
    DoubleIsTileValue(t.value);
  }

  /** A power of two below `2 * n` is at most `n`, for `n` itself a power of two. */
  lemma {:induction false} Pow2Below(v: int, n: int)
    requires IsPow2(v) && IsPow2(n) && v < 2 * n
    ensures v <= n
    decreases n
  {
    if v > 1 && n > 1 {
      Pow2Below(v / 2, n / 2);
    }
  }

  /** The exponent of a power of two. */
  function Log2(n: int): (k: nat)
    requires IsPow2(n)
    ensures n == 1 <==> k == 0
    decreases n
  {
    if n == 1 then 0 else 1 + Log2(n / 2)
  }

  /** Doubling a power of two raises its exponent by one. */
  lemma Log2Double(n: int)
    requires IsPow2(n) && n >= 1
    ensures IsPow2(2 * n) && Log2(2 * n) == Log2(n) + 1
  {
    assert (2 * n) / 2 == n;
  }

  /** A power of two no greater than another has no greater exponent. */
  lemma {:induction false} Log2Monotone(v: int, n: int)
    requires IsPow2(v) && IsPow2(n) && v <= n
    ensures Log2(v) <= Log2(n)
    decreases n
  {
    if v > 1 {
      Log2Monotone(v / 2, n / 2);
    }
  }

  /** The score earned by building a tile of value `n` = 2^k out of 2s: each
      of the k - 1 doublings on the way up adds the value it creates, in all
      (k - 1) * 2^k. Zero for anything that is not a tile value. */
  function BuildScore(n: int): (w: int)
    ensures w >= 0
  {
    if IsTileValue(n) then n * (Log2(n) - 1) else 0
  }

  /** Merging two tiles of value `n` adds exactly the new value `2 * n` to
      what the two tiles were worth. */
  lemma BuildScoreDouble(n: int)
    requires IsTileValue(n)
    ensures IsTileValue(2 * n)
    ensures BuildScore(2 * n) == 2 * BuildScore(n) + 2 * n
  {
    DoubleIsTileValue(n);
    Log2Double(n);
    var k := Log2(n);
    assert BuildScore(2 * n) == 2 * n * k;
    assert n * (k - 1) == n * k - n;
  }

  /** A tile of value at most 2048 is worth at most 2048 * 10. */
  lemma BuildScoreBelowTarget(n: int)
    requires IsTileValue(n) && n <= 2048
    ensures BuildScore(n) <= 2048 * 10
  {
    assert IsPow2(2048) by {
      assert IsPow2(2) && IsPow2(4) && IsPow2(8) && IsPow2(16) && IsPow2(32) && IsPow2(64);
      assert IsPow2(128) && IsPow2(256) && IsPow2(512) && IsPow2(1024);
    }
    assert Log2(2048) == 11 by {
      assert Log2(2) == 1 && Log2(4) == 2 && Log2(8) == 3 && Log2(16) == 4 && Log2(32) == 5;
      assert Log2(64) == 6 && Log2(128) == 7 && Log2(256) == 8 && Log2(512) == 9 && Log2(1024) == 10;
    }
    Log2Monotone(n, 2048);
    var k := Log2(n);
    assert 1 <= k <= 11;
    assert n * (k - 1) <= 2048 * (k - 1);
  }

  /** The two spawn values are tile values. */
  lemma SpawnValuesAreTileValues()
    ensures IsTileValue(2) && IsTileValue(4)
  {
    assert IsPow2(1);
    assert IsPow2(2);
  }
}
