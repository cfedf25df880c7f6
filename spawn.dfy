/** Where `addRandomTile` puts the new tile.

    The probe starts from a random index `pos` in [0, 16) and looks at
    `(pos + 1) % 16`, `(pos + 2) % 16`, ... until it meets an empty cell; the
    start index itself is looked at last, after 16 steps. The new tile holds
    4 or 2, as a second random draw decides. Both draws are parameters here.
 */
module Spawning {
  import opened Tiles
  import opened Boards

  /** The cell the probe looks at after `k` steps from start index `pos`:
      `(pos + k) % 16`, the start index itself after 0 or 16 steps. */
  function ProbeCell(pos: int, k: int): (q: int)
    requires 0 <= pos < Size && 0 <= k <= Size
    ensures 0 <= q < Size
  {
    if pos + k < Size then pos + k else pos + k - Size
  }

  /** `ProbeCell` is the index `(pos + k) % 16` the source computes. */
  lemma ProbeCellIsRemainder(pos: int, k: int)
    requires 0 <= pos < Size && 0 <= k <= Size
    ensures ProbeCell(pos, k) == (pos + k) % 16
  {
  }

  /** One more probe step moves on to the next index modulo 16. */
  lemma ProbeNext(pos: int, k: int)
    requires 0 <= pos < Size && 0 <= k < Size
    ensures ProbeCell(pos, k + 1) == (ProbeCell(pos, k) + 1) % 16
  {
  }

  /** The number of probe steps from start index `pos` to cell `q`. */
  function ProbeDistance(pos: int, q: int): (k: int)
    requires 0 <= pos < Size && 0 <= q < Size
    ensures 1 <= k <= Size && ProbeCell(pos, k) == q
  {
    if q > pos then q - pos else q - pos + Size
  }

  /** The cell the probe looks at after `k` steps has probe distance `k`. */
  lemma ProbeDistanceOfStep(pos: int, k: int)
    requires 0 <= pos < Size && 1 <= k <= Size
    ensures ProbeDistance(pos, ProbeCell(pos, k)) == k
  {
  }

  /** The first empty cell the probe meets from step `k` on. */
  function FirstEmptyFrom(b: seq<Cell>, pos: int, k: int): (q: int)
    requires IsBoard(b) && 0 <= pos < Size && 1 <= k <= Size
    requires exists m :: k <= m <= Size && b[ProbeCell(pos, m)].Empty?
    ensures 0 <= q < Size && b[q].Empty?
    decreases Size - k
  {
    if b[ProbeCell(pos, k)].Empty? then ProbeCell(pos, k) else FirstEmptyFrom(b, pos, k + 1)
  }

  /** `FirstEmptyFrom` finds an empty cell at least `k` steps away, and every
      cell the probe passes on the way there holds a tile. */
  lemma {:induction false} FirstEmptyFromIsFirst(b: seq<Cell>, pos: int, k: int)
    requires IsBoard(b) && 0 <= pos < Size && 1 <= k <= Size
    requires exists m :: k <= m <= Size && b[ProbeCell(pos, m)].Empty?
    ensures var q := FirstEmptyFrom(b, pos, k);
      && 0 <= q < Size && b[q].Empty? && k <= ProbeDistance(pos, q)
      && forall m :: k <= m < ProbeDistance(pos, q) ==> b[ProbeCell(pos, m)].Full?
    decreases Size - k
  {
    ProbeDistanceOfStep(pos, k);
    if b[ProbeCell(pos, k)].Full? {
      var m :| k <= m <= Size && b[ProbeCell(pos, m)].Empty?;
      assert m != k;
      FirstEmptyFromIsFirst(b, pos, k + 1);
    }
  }

  /** The cell `addRandomTile` fills: the first empty cell in probe order. */
  function SpawnIndex(b: seq<Cell>, pos: int): (q: int)
    requires IsBoard(b) && 0 <= pos < Size && HasEmpty(b)
    ensures 0 <= q < Size && b[q].Empty?
  {
    var e :| 0 <= e < Size && b[e].Empty?;
    assert b[ProbeCell(pos, ProbeDistance(pos, e))].Empty?;
    FirstEmptyFromIsFirst(b, pos, 1);
    FirstEmptyFrom(b, pos, 1)
  }

  /** Every cell the probe looks at before the spawn cell holds a tile. */
  lemma SpawnIndexIsFirst(b: seq<Cell>, pos: int)
    requires IsBoard(b) && 0 <= pos < Size && HasEmpty(b)
    ensures forall w :: 0 <= w < Size && ProbeDistance(pos, w) < ProbeDistance(pos, SpawnIndex(b, pos)) ==> b[w].Full?
  {
    var e :| 0 <= e < Size && b[e].Empty?;
    assert b[ProbeCell(pos, ProbeDistance(pos, e))].Empty?;
    FirstEmptyFromIsFirst(b, pos, 1);
    forall w | 0 <= w < Size && ProbeDistance(pos, w) < ProbeDistance(pos, SpawnIndex(b, pos))
      ensures b[w].Full?
    {
      assert ProbeCell(pos, ProbeDistance(pos, w)) == w;
    }
  }

  /** A probe that meets a tile before the spawn cell goes on probing. */
  lemma ProbePassesTile(b: seq<Cell>, pos: int, k: int)
    requires IsBoard(b) && 0 <= pos < Size && HasEmpty(b)
    requires 1 <= k <= ProbeDistance(pos, SpawnIndex(b, pos)) && b[ProbeCell(pos, k)].Full?
    ensures k < ProbeDistance(pos, SpawnIndex(b, pos))
  {
  }

  /** A probe that meets an empty cell no later than the spawn cell has
      reached the spawn cell. */
  lemma ProbeStopsAtSpawn(b: seq<Cell>, pos: int, k: int)
    requires IsBoard(b) && 0 <= pos < Size && HasEmpty(b)
    requires 1 <= k <= ProbeDistance(pos, SpawnIndex(b, pos)) && b[ProbeCell(pos, k)].Empty?
    ensures ProbeCell(pos, k) == SpawnIndex(b, pos)
  {
    SpawnIndexIsFirst(b, pos);
    ProbeDistanceOfStep(pos, k);
  }

  /** The value of the new tile: 4 when the one-in-ten draw hits, else 2. */
  function SpawnValue(four: bool): (v: int)
    ensures v == 2 || v == 4
    ensures IsTileValue(v)
  {
    SpawnValuesAreTileValues();
    if four then 4 else 2
  }

  /** The board after `addRandomTile` with start index `pos`. */
  function Spawn(b: seq<Cell>, pos: int, four: bool): (r: seq<Cell>)
    requires IsBoard(b) && 0 <= pos < Size && HasEmpty(b)
    ensures IsBoard(r)
  {
    b[SpawnIndex(b, pos) := Full(NewTile(SpawnValue(four)))]
  }

  /** A spawn fills exactly one cell that was empty, with an unmerged 2 or 4,
      and leaves every other cell as it was: one more tile, the sum of values
      grows by the new value, the score of building the tiles out of 2s
      grows by what the new tile is worth, and tile values, unmerged boards
      and the bound on merged tiles are kept. */
  lemma SpawnAddsOneTile(b: seq<Cell>, pos: int, four: bool, h: int)
    requires IsBoard(b) && 0 <= pos < Size && HasEmpty(b)
    ensures var q, r := SpawnIndex(b, pos), Spawn(b, pos, four);
      && b[q].Empty? && r[q] == Full(Tile(SpawnValue(four), false))
      && (forall w :: 0 <= w < Size && w != q ==> r[w] == b[w])
      && Count(r) == Count(b) + 1
      && Sum(r) == Sum(b) + SpawnValue(four)
      && MergedCount(r) == MergedCount(b) && MergedSum(r) == MergedSum(b)
      && BuildTotal(r) == BuildTotal(b) + BuildScore(SpawnValue(four))
      && (AllTileValues(b) ==> AllTileValues(r))
      && (NoneMerged(b) ==> NoneMerged(r))
      && (MergedBounded(b, h) ==> MergedBounded(r, h))
  {
    var q := SpawnIndex(b, pos);
    var x := Full(NewTile(SpawnValue(four)));
    TotalUpdate(b, q, x, CellValue);
    TotalUpdate(b, q, x, Occupied);
    TotalUpdate(b, q, x, MergedOne);
    TotalUpdate(b, q, x, MergedValue);
    TotalUpdate(b, q, x, CellBuildScore);
  }

  /** When the cell right after the start index is empty, the tile lands there. */
  lemma SpawnTakesNextFreeCell(b: seq<Cell>, pos: int)
    requires IsBoard(b) && 0 <= pos < Size && HasEmpty(b)
    requires b[ProbeCell(pos, 1)].Empty?
    ensures SpawnIndex(b, pos) == ProbeCell(pos, 1)
  {
    SpawnIndexIsFirst(b, pos);
    ProbeDistanceOfStep(pos, 1);
  }

  /** With a single empty cell, the tile lands there whatever the start index. */
  lemma SpawnFindsOnlyGap(b: seq<Cell>, pos: int, e: int)
    requires IsBoard(b) && 0 <= pos < Size && 0 <= e < Size && b[e].Empty?
    requires forall w :: 0 <= w < Size && w != e ==> b[w].Full?
    ensures SpawnIndex(b, pos) == e
  {
  }
}
