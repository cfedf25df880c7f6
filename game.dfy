/** The game: its state machine, the policy applied after each move, and the
    `Game` object whose methods update the grid in place.

    The pure functions `MoveOutcome` and `StartBoard` say what one move and
    one start do to what a game shows (`GameView`); the lemmas state what
    they keep and when the state changes; the methods of `Game` are proved
    to do exactly that on the grid array.
 */
module Game2048 {
  import opened Tiles
  import opened Boards
  import opened Engine
  import opened Spawning

  /** The four states of a game. */
  datatype State = Start | Won | Running | Over

  /** The tile value that wins the game. */
  const Target := 2048

  /** What a game shows: the board, the score, the highest merged value and the state. */
  datatype GameView = GameView(board: seq<Cell>, score: int, highest: int, state: State)

  // ---------------------------------------------------------------------------
  // One move and one start, as functions

  /** The post-move policy applied to the result `t` of the slide/merge
      phase of a move, in a game in state `state`. After a change, while
      `highest` is below 2048, the merged flags are reset, one tile spawns
      (start index `spawnPos`, a 4 when `spawnFour`), and the game is over
      when no direction can move any more; when `highest` is 2048 the game is
      won and nothing spawns; beyond 2048 nothing further happens. The second
      component is what the move returns: whether anything changed. */
  function Policy(state: State, t: Step, spawnPos: int, spawnFour: bool): (r: (GameView, bool))
    requires IsBoard(t.board) && 0 <= spawnPos < Size && (t.moved ==> HasEmpty(t.board))
    ensures IsBoard(r.0.board) && r.1 == t.moved
  {
    if !t.moved then
      (GameView(t.board, t.score, t.highest, state), false)
    else if t.highest < Target then
      ClearFlagsKeepsTiles(t.board);
      var b := Spawn(ClearFlags(t.board), spawnPos, spawnFour);
      (GameView(b, t.score, t.highest, if AnyMove(b) then state else Over), true)
    else if t.highest == Target then
      (GameView(t.board, t.score, t.highest, Won), true)
    else
      (GameView(t.board, t.score, t.highest, state), true)
  }

  /** The result of a non-dry move with traversal origin `countDownFrom` in
      direction `d`: the slide/merge phase followed by the post-move policy. */
  function MoveOutcome(g: GameView, countDownFrom: int, d: Dir, spawnPos: int, spawnFour: bool): (r: (GameView, bool))
    requires IsBoard(g.board) && IsOrigin(countDownFrom) && 0 <= spawnPos < Size
    ensures IsBoard(r.0.board)
  {
    DryRunMatchesMove(g.board, g.score, g.highest, countDownFrom, d);
    Policy(g.state, SlideAll(g.board, g.score, g.highest, countDownFrom, d), spawnPos, spawnFour)
  }

  /** The board `startGame` leaves: two spawns on an empty board. */
  function StartBoard(pos1: int, four1: bool, pos2: int, four2: bool): (b: seq<Cell>)
    requires 0 <= pos1 < Size && 0 <= pos2 < Size
    ensures IsBoard(b)
  {
    var b0 := EmptyBoard();
    assert b0[0].Empty?;
    var b1 := Spawn(b0, pos1, four1);
    SpawnAddsOneTile(b0, pos1, four1, 0);
    assert HasEmpty(b1) by {
      var w := if SpawnIndex(b0, pos1) == 0 then 1 else 0;
      assert b1[w].Empty?;
    }
    Spawn(b1, pos2, four2)
  }

  /** Each of the two spawns of a start finds an empty cell, and the board
      they leave is `StartBoard`. */
  lemma StartSpawns(pos1: int, four1: bool, pos2: int, four2: bool)
    requires 0 <= pos1 < Size && 0 <= pos2 < Size
    ensures HasEmpty(EmptyBoard()) && HasEmpty(Spawn(EmptyBoard(), pos1, four1))
    ensures StartBoard(pos1, four1, pos2, four2) == Spawn(Spawn(EmptyBoard(), pos1, four1), pos2, four2)
  {
    var b0 := EmptyBoard();
    assert b0[0].Empty?;
    var b1 := Spawn(b0, pos1, four1);
    var w := if SpawnIndex(b0, pos1) == 0 then 1 else 0;
    assert b1[w].Empty?;
  }

  /** What holds of every game from its first start on. Tile values are
      powers of two from 2; unmerged tiles are at most 1024; merged tiles are
      at most `highest`, which is at most 2048 and at most the score. While the
      game runs or is over no tile is marked merged and `highest` is below
      2048. A game that is over has a full board on which no direction can
      move. A won game holds a merged 2048 tile. */
  predicate GameInv(g: GameView) {
    && IsBoard(g.board) && g.state != Start
    && AllTileValues(g.board)
    && UnmergedBounded(g.board, Target / 2)
    && MergedBounded(g.board, g.highest)
    && 0 <= g.highest <= g.score && g.highest <= Target
    && (g.state == Running || g.state == Over ==> NoneMerged(g.board) && g.highest < Target)
    && (g.state == Over ==> !AnyMove(g.board) && !HasEmpty(g.board))
    && (g.state == Won ==> g.highest == Target && HasMergedValue(g.board, Target))
  }

  // ---------------------------------------------------------------------------
  // What a move does

  /** What the slide/merge phase `t` of a move keeps of the game `g` it
      started from: the sum of tile values; occupied plus merged cells; the
      score grows by the values of the newly merged tiles; `highest` never
      drops and either stays or is the value of a merged tile; merged tiles
      survive; tile values stay powers of two; the bounds on merged and
      unmerged tiles hold on. */
  predicate SlideKeeps(g: GameView, t: Step)
    requires IsBoard(g.board)
  {
    && IsBoard(t.board)
    && Sum(t.board) == Sum(g.board)
    && Count(t.board) + MergedCount(t.board) == Count(g.board) + MergedCount(g.board)
    && t.score - g.score == MergedSum(t.board) - MergedSum(g.board)
    && t.highest >= g.highest
    && (t.highest == g.highest || HasMergedValue(t.board, t.highest))
    && (HasMergedValue(g.board, Target) ==> HasMergedValue(t.board, Target))
    && (AllTileValues(g.board) ==> AllTileValues(t.board))
    && (MergedBounded(g.board, g.highest) ==> MergedBounded(t.board, t.highest))
    && (AllTileValues(g.board) && 0 <= g.highest <= g.score ==> 0 <= t.highest <= t.score)
    && (UnmergedBounded(g.board, Target / 2) ==> UnmergedBounded(t.board, Target / 2))
    && (UnmergedBounded(g.board, Target / 2) && g.highest <= Target ==> t.highest <= Target)
  }

  /** What the slide/merge phase `t` of a move in direction `d` reports: a
      change happens exactly when the direction can move, and leaves an
      empty cell; without a change nothing differs. */
  predicate SlideReports(g: GameView, d: Dir, t: Step)
    requires IsBoard(g.board)
  {
    && IsBoard(t.board)
    && (t.moved <==> CanMove(g.board, d))
    && (t.moved ==> HasEmpty(t.board))
    && (!t.moved ==> t == Step(g.board, false, g.score, g.highest))
  }

  /** The slide/merge phase of every move keeps what `SlideKeeps` lists. */
  lemma SlideAllKeeps(g: GameView, countDownFrom: int, d: Dir)
    requires IsBoard(g.board) && IsOrigin(countDownFrom)
    ensures SlideKeeps(g, SlideAll(g.board, g.score, g.highest, countDownFrom, d))
  {
    var s0 := Step(g.board, false, g.score, g.highest);
    SweepConservesTotals(s0, countDownFrom, d, Size);
    SweepCounters(s0, countDownFrom, d, Size);
    SweepKeepsMerged(s0, countDownFrom, d, Size, Target);
    if UnmergedBounded(g.board, Target / 2) {
      SweepBounds(s0, countDownFrom, d, Size, Target / 2);
    }
  }

  /** The slide/merge phase of every move reports what `SlideReports` lists. */
  lemma SlideAllReports(g: GameView, countDownFrom: int, d: Dir)
    requires IsBoard(g.board) && IsOrigin(countDownFrom)
    ensures SlideReports(g, d, SlideAll(g.board, g.score, g.highest, countDownFrom, d))
  {
    DryRunMatchesMove(g.board, g.score, g.highest, countDownFrom, d);
  }

  /** A move reports a change exactly when its direction can move (in the
      sense of the dry run); a move that reports none leaves the game exactly
      as it was, state included. */
  lemma MoveReportsChange(g: GameView, countDownFrom: int, d: Dir, spawnPos: int, spawnFour: bool)
    requires IsBoard(g.board) && IsOrigin(countDownFrom) && 0 <= spawnPos < Size
    ensures var (h, moved) := MoveOutcome(g, countDownFrom, d, spawnPos, spawnFour);
      && (moved <==> CanMove(g.board, d))
      && (!moved ==> h == g)
  {
    SlideAllReports(g, countDownFrom, d);
  }

  /** The policy after a change while `highest` stays below 2048 adds the
      spawned value to the sum of tile values, adds one tile, leaves no tile
      marked merged, and ends the game exactly when no direction can move
      afterwards (or it was over before). Reaching 2048 wins, spawns nothing
      and keeps the board; beyond 2048 the state and the board stay. The
      counters are those the slide/merge phase left. */
  lemma PolicyCases(state: State, t: Step, spawnPos: int, spawnFour: bool)
    requires IsBoard(t.board) && 0 <= spawnPos < Size && (t.moved ==> HasEmpty(t.board))
    ensures var (h, moved) := Policy(state, t, spawnPos, spawnFour);
      && h.score == t.score && h.highest == t.highest
      && (!moved ==> h.board == t.board && h.state == state)
      && (moved && t.highest < Target ==>
            && Sum(h.board) == Sum(t.board) + SpawnValue(spawnFour)
            && Count(h.board) == Count(t.board) + 1
            && NoneMerged(h.board)
            && (h.state == Over <==> state == Over || !AnyMove(h.board)))
      && (moved && t.highest == Target ==> h.state == Won && h.board == t.board)
      && (moved && t.highest > Target ==> h.state == state && h.board == t.board)
  {
    if t.moved && t.highest < Target {
      ClearFlagsKeepsTiles(t.board);
      SpawnAddsOneTile(ClearFlags(t.board), spawnPos, spawnFour, 0);
    }
  }

  /** In a game with no merged tile the score grows by exactly the values of
      the tiles the move merged, the number of tiles it merged is the number
      of cells the merges freed, the sum of tile values grows by the spawned
      value or not at all, and `highest` never drops. */
  lemma MoveScore(g: GameView, countDownFrom: int, d: Dir, spawnPos: int, spawnFour: bool)
    requires IsBoard(g.board) && IsOrigin(countDownFrom) && 0 <= spawnPos < Size
    requires NoneMerged(g.board)
    ensures var t := SlideAll(g.board, g.score, g.highest, countDownFrom, d);
      var (h, moved) := MoveOutcome(g, countDownFrom, d, spawnPos, spawnFour);
      && h.score - g.score == MergedSum(t.board)
      && MergedCount(t.board) == Count(g.board) - Count(t.board)
      && h.highest >= g.highest
      && Sum(h.board) == Sum(g.board) + (if moved && t.highest < Target then SpawnValue(spawnFour) else 0)
  {
    var t := SlideAll(g.board, g.score, g.highest, countDownFrom, d);
    SlideAllKeeps(g, countDownFrom, d);
    SlideAllReports(g, countDownFrom, d);
    NoMergedTotals(g.board, 0);
    PolicyCases(g.state, t, spawnPos, spawnFour);
  }

  /** Merged tiles below 2048 are at most 1024 once their flags are reset. */
  lemma ClearedTilesBounded(b: seq<Cell>, h: int)
    requires AllTileValues(b) && UnmergedBounded(b, Target / 2) && MergedBounded(b, h) && h < Target
    ensures UnmergedBounded(ClearFlags(b), Target / 2)
  {
    assert IsPow2(1024) by {
      assert IsPow2(2) && IsPow2(4) && IsPow2(8) && IsPow2(16) && IsPow2(32);
      assert IsPow2(64) && IsPow2(128) && IsPow2(256) && IsPow2(512);
    }
    forall p | 0 <= p < |b| && b[p].Full? && b[p].tile.merged
      ensures b[p].tile.value <= Target / 2
    {
      Pow2Below(b[p].tile.value, 1024);
    }
    ClearFlagsKeepsTiles(b);
  }

  /** A spawn after a change below 2048 keeps the invariant: the new board
      has a tile, so if it also had an empty cell some direction could move,
      and a game declared over has a full board. */
  lemma SpawnKeepsInv(g: GameView, t: Step, spawnPos: int, spawnFour: bool)
    requires GameInv(g) && 0 <= spawnPos < Size
    requires SlideKeeps(g, t) && HasEmpty(t.board)
    requires t.moved && t.highest < Target && g.state != Over
    ensures GameInv(Policy(g.state, t, spawnPos, spawnFour).0)
  {
    var c := ClearFlags(t.board);
    ClearFlagsKeepsTiles(t.board);
    ClearedTilesBounded(t.board, t.highest);
    var b := Spawn(c, spawnPos, spawnFour);
    SpawnAddsOneTile(c, spawnPos, spawnFour, 0);
    assert b[SpawnIndex(c, spawnPos)].Full?;
    if HasEmpty(b) {
      var e :| 0 <= e < |b| && b[e].Empty?;
      GapGivesMove(b, e, SpawnIndex(c, spawnPos));
    }
  }

  /** The post-move policy keeps the game invariant for every slide/merge
      result with the properties `SlideKeeps` and `SlideReports` list; on the way, `highest`
      never passes 2048, so the branch of the policy for `highest` beyond
      2048 is never taken in a game that keeps the invariant. */
  lemma PolicyPreservesInv(g: GameView, d: Dir, t: Step, spawnPos: int, spawnFour: bool)
    requires GameInv(g) && 0 <= spawnPos < Size && SlideKeeps(g, t) && SlideReports(g, d, t)
    ensures t.highest <= Target
    ensures GameInv(Policy(g.state, t, spawnPos, spawnFour).0)
  {
    if t.moved {
      assert AnyMove(g.board) by {
        match d
        case Up =>
        case Down =>
        case Left =>
        case Right =>
      }
      if t.highest < Target {
        SpawnKeepsInv(g, t, spawnPos, spawnFour);
      }
    }
  }

  /** Every move keeps the game invariant, and `highest` never passes 2048. */
  lemma MovePreservesInv(g: GameView, countDownFrom: int, d: Dir, spawnPos: int, spawnFour: bool)
    requires GameInv(g) && IsOrigin(countDownFrom) && 0 <= spawnPos < Size
    ensures SlideAll(g.board, g.score, g.highest, countDownFrom, d).highest <= Target
    ensures GameInv(MoveOutcome(g, countDownFrom, d, spawnPos, spawnFour).0)
  {
    SlideAllKeeps(g, countDownFrom, d);
    SlideAllReports(g, countDownFrom, d);
    PolicyPreservesInv(g, d, SlideAll(g.board, g.score, g.highest, countDownFrom, d), spawnPos, spawnFour);
  }

  /** Two 1024s merged by a move left make a 2048: the game is won, nothing
      spawns, the new tile keeps its merged flag and the score grows by 2048. */
  lemma ExampleWin(score: int, spawnPos: int, spawnFour: bool)
    requires 0 <= spawnPos < Size
    ensures MoveOutcome(GameView([Unmerged(1024), Unmerged(1024)] + Blank(14), score, 1024, Running), 0, Left, spawnPos, spawnFour)
         == (GameView([MergedTile(2048)] + Blank(15), score + 2048, 2048, Won), true)
  {
    var s := Step([Unmerged(1024), Unmerged(1024)] + Blank(14), false, score, 1024);
    var t := Step([MergedTile(2048)] + Blank(15), true, score + 2048, 2048);
    assert Sweep(s, 0, Left, 1) == s;
    assert Merge(s, 1, 0).board == t.board;
    assert Sweep(s, 0, Left, 2) == t;
    SweepOverEmpty(s, 0, Left, 2, Size);
  }

  // ---------------------------------------------------------------------------
  // What a start does

  /** The first spawn on the empty board puts an unmerged 2 or 4 into the
      cell right after the start index and leaves every other cell empty. */
  lemma SpawnOnEmptyBoard(pos: int, four: bool)
    requires 0 <= pos < Size
    ensures EmptyBoard()[0].Empty?
    ensures var b := Spawn(EmptyBoard(), pos, four);
      && b[ProbeCell(pos, 1)] == Full(Tile(SpawnValue(four), false))
      && (forall w :: 0 <= w < Size && w != ProbeCell(pos, 1) ==> b[w].Empty?)
      && Count(b) == 1 && Sum(b) == SpawnValue(four)
  {
    var b0 := EmptyBoard();
    EmptyBoardTotals(Occupied, 0);
    EmptyBoardTotals(CellValue, 0);
    assert b0[0].Empty?;
    SpawnTakesNextFreeCell(b0, pos);
    SpawnAddsOneTile(b0, pos, four, 0);
  }

  /** A start leaves exactly two tiles, each an unmerged 2 or 4, the first of
      them in the cell right after the first start index. */
  lemma StartBoardTiles(pos1: int, four1: bool, pos2: int, four2: bool)
    requires 0 <= pos1 < Size && 0 <= pos2 < Size
    ensures var b := StartBoard(pos1, four1, pos2, four2);
      && Count(b) == 2
      && Sum(b) == SpawnValue(four1) + SpawnValue(four2)
      && (forall p :: 0 <= p < Size && b[p].Full? ==> !b[p].tile.merged && (b[p].tile.value == 2 || b[p].tile.value == 4))
      && b[ProbeCell(pos1, 1)].Full?
  {
    SpawnOnEmptyBoard(pos1, four1);
    var b1 := Spawn(EmptyBoard(), pos1, four1);
    var w := if ProbeCell(pos1, 1) == 0 then 1 else 0;
    assert b1[w].Empty?;
    SpawnAddsOneTile(b1, pos2, four2, 0);
    assert StartBoard(pos1, four1, pos2, four2) == Spawn(b1, pos2, four2);
  }

  /** A start establishes the game invariant, with score and `highest` at zero. */
  lemma StartEstablishesInv(pos1: int, four1: bool, pos2: int, four2: bool)
    requires 0 <= pos1 < Size && 0 <= pos2 < Size
    ensures GameInv(GameView(StartBoard(pos1, four1, pos2, four2), 0, 0, Running))
  {
    StartBoardTiles(pos1, four1, pos2, four2);
    var b := StartBoard(pos1, four1, pos2, four2);
    assert AllTileValues(b) by {
      SpawnValuesAreTileValues();
    }
  }

  // ---------------------------------------------------------------------------
  // How large the score can grow

  /** The score is at most what building the board's tiles out of 2s would
      earn: every point of score came from a merge, and each merge adds to
      the score exactly what it adds to that build score. */
  predicate ScoreBounded(g: GameView)
    requires IsBoard(g.board)
  {
    g.score <= BuildTotal(g.board)
  }

  /** A start leaves a game whose score is bounded. */
  lemma StartScoreBounded(pos1: int, four1: bool, pos2: int, four2: bool)
    requires 0 <= pos1 < Size && 0 <= pos2 < Size
    ensures ScoreBounded(GameView(StartBoard(pos1, four1, pos2, four2), 0, 0, Running))
  {
    StartEstablishesInv(pos1, four1, pos2, four2);
    StartBoardTiles(pos1, four1, pos2, four2);
    BuildTotalBounds(StartBoard(pos1, four1, pos2, four2));
  }

  /** Every move of a game that keeps the invariant keeps the score bounded:
      the slide/merge phase raises score and build score alike, clearing the
      flags changes neither, and a spawn raises only the build score. */
  lemma MovePreservesScoreBounded(g: GameView, countDownFrom: int, d: Dir, spawnPos: int, spawnFour: bool)
    requires GameInv(g) && ScoreBounded(g) && IsOrigin(countDownFrom) && 0 <= spawnPos < Size
    ensures ScoreBounded(MoveOutcome(g, countDownFrom, d, spawnPos, spawnFour).0)
  {
    var t := SlideAll(g.board, g.score, g.highest, countDownFrom, d);
    SweepBuildScore(Step(g.board, false, g.score, g.highest), countDownFrom, d, Size);
    DryRunMatchesMove(g.board, g.score, g.highest, countDownFrom, d);
    if t.moved && t.highest < Target {
      ClearFlagsKeepsTiles(t.board);
      SpawnAddsOneTile(ClearFlags(t.board), spawnPos, spawnFour, 0);
    }
  }

  /** In a game that keeps the invariant and has a bounded score, no number
      the game computes leaves the range of a 32-bit `int`: every tile is at
      most 2048, a tile that can still merge is at most 1024, so doubling it
      gives at most 2048, and the score is at most 16 * 2048 * 10. */
  lemma ScoreFitsInt(g: GameView)
    requires GameInv(g) && ScoreBounded(g)
    ensures forall p :: 0 <= p < Size && g.board[p].Full? ==> g.board[p].tile.value <= Target
    ensures forall p :: 0 <= p < Size && g.board[p].Full? && !g.board[p].tile.merged ==> 2 * g.board[p].tile.value <= Target
    ensures 0 <= g.highest <= g.score <= Size * Target * 10 < 0x7fff_ffff
  {
    BuildTotalBounds(g.board);
  }

  // ---------------------------------------------------------------------------
  // The game object

  /** A game: the grid (absent until the first start), the two counters, the
      state and the dry-run flag. The grid is one array of 16 cells read row
      by row: cell (r, c) is `tiles[4 * r + c]`. */
  class Game {
    var tiles: array?<Cell>
    var score: int
    var highest: int
    var state: State
    var checking: bool

    /** The grid exists exactly once the game has left the start state, and
        has 16 cells. */
    ghost predicate Valid()
      reads this
    {
      && (tiles == null <==> state == Start)
      && (tiles != null ==> tiles.Length == Size)
    }

    /** The cells of the grid, row by row; the empty board before the first start. */
    ghost function Board(): seq<Cell>
      reads this, tiles
    {
      if tiles == null then EmptyBoard() else tiles[..]
    }

    /** What the game shows. */
    ghost function View(): GameView
      reads this, tiles
    {
      GameView(Board(), score, highest, state)
    }

    /** A new game has no grid yet and waits in the start state. */
    constructor ()
      ensures Valid() && tiles == null && score == 0 && highest == 0 && state == Start && !checking
    {
      tiles := null;
      score := 0;
      highest := 0;
      state := Start;
      checking := false;
    }

    /** Resets the merged flag of every tile, row by row. */
    method ClearMerged()
      requires Valid() && tiles != null
      modifies tiles
      ensures tiles[..] == ClearFlags(old(tiles[..]))
    {
      for r := 0 to 4
        invariant forall i :: 0 <= i < Size ==> tiles[i] == if i < 4 * r then Unmark(old(tiles[i])) else old(tiles[i])
      {
        for c := 0 to 4
          invariant forall i :: 0 <= i < Size ==> tiles[i] == if i < 4 * r + c then Unmark(old(tiles[i])) else old(tiles[i])
        {
          if tiles[4 * r + c].Full? {
            tiles[4 * r + c] := Full(SetMerged(tiles[4 * r + c].tile, false));
          }
        }
      }
    }

    /** Puts a new tile into the first empty cell after start index
        `startPos`, probing with wrap-around; the tile holds 4 when `four`
        and 2 otherwise. The probe ends only at an empty cell, so the board
        must have one. */
    method AddRandomTile(startPos: int, four: bool)
      requires Valid() && tiles != null && 0 <= startPos < Size && HasEmpty(tiles[..])
      modifies tiles
      ensures tiles[..] == Spawn(old(tiles[..]), startPos, four)
    {
      ghost var b := tiles[..];
      ghost var e := SpawnIndex(b, startPos);
      ghost var k := 0;
      var pos := startPos;
      var row, col := 0, 0;
      while true
        modifies {}
        invariant 0 <= k < ProbeDistance(startPos, e) && pos == ProbeCell(startPos, k)
        decreases ProbeDistance(startPos, e) - k
      {
        ProbeNext(startPos, k);
        pos := (pos + 1) % 16;
        row := pos / 4;
        col := pos % 4;
        k := k + 1;
        assert 4 * row + col == pos;
        if tiles[4 * row + col] == Empty {
          ProbeStopsAtSpawn(b, startPos, k);
          break;
        }
        ProbePassesTile(b, startPos, k);
      }
      var val := if four then 4 else 2;
      assert 4 * row + col == pos && val == SpawnValue(four);
      tiles[4 * row + col] := Full(NewTile(val));
    }

    /** The tile in cell (`r`, `c`) slides into the empty neighbour
        (`nextR`, `nextC`) ahead of it in direction `d`, leaving its own cell
        empty; `p` and `q` are the two cells' linear indices and `m` the
        change flag of the move so far. The rest of the push goes on from
        the new cell. */
    method SlideTile(r: int, c: int, nextR: int, nextC: int, ghost p: int, ghost q: int, ghost d: Dir, ghost m: bool)
      requires tiles != null && tiles.Length == Size && InBounds(r, c) && InBounds(nextR, nextC)
      requires p == 4 * r + c && q == 4 * nextR + nextC && q == Ahead(p, d)
      requires tiles[p].Full? && tiles[q].Empty?
      modifies tiles
      ensures tiles[q].Full?
      ensures Step(tiles[..], true, score, highest) == Slide(Step(old(tiles[..]), m, score, highest), p, q)
      ensures Push(Step(tiles[..], true, score, highest), q, d) == Push(Step(old(tiles[..]), m, score, highest), p, d)
    {
      PushSlides(Step(tiles[..], m, score, highest), p, q, d);
      var curr := tiles[4 * r + c];
      tiles[4 * nextR + nextC] := curr;
      tiles[4 * r + c] := Empty;
    }

    /** The tile in cell (`nextR`, `nextC`), ahead of the tile in cell
        (`r`, `c`) in direction `d`, absorbs it; the cell (`r`, `c`) is left
        empty, the score grows by the new value and `highest` rises to it if
        it is larger. This ends the push. */
    method MergeTile(r: int, c: int, nextR: int, nextC: int, ghost p: int, ghost q: int, ghost d: Dir, ghost m: bool)
      requires tiles != null && tiles.Length == Size && InBounds(r, c) && InBounds(nextR, nextC)
      requires p == 4 * r + c && q == 4 * nextR + nextC && q == Ahead(p, d)
      requires tiles[p].Full? && tiles[q].Full? && CanMergeWith(tiles[q].tile, tiles[p])
      modifies this`score, this`highest, tiles
      ensures Step(tiles[..], true, score, highest) == Merge(Step(old(tiles[..]), m, old(score), old(highest)), p, q)
      ensures Step(tiles[..], true, score, highest) == Push(Step(old(tiles[..]), m, old(score), old(highest)), p, d)
    {
      PushMerges(Step(tiles[..], m, score, highest), p, q, d);
      var (merged, value) := MergeWith(tiles[4 * nextR + nextC].tile, tiles[4 * r + c]);
      tiles[4 * nextR + nextC] := Full(merged);
      if value > highest {
        highest := value;
      }
      score := score + value;
      tiles[4 * r + c] := Empty;
    }

    /** Pushes the tile in cell (`r0`, `c0`) one cell at a time by (`yIncr`,
        `xIncr`) through empty cells, merging it at most once with a tile
        that can absorb it; `movedBefore` is the move's change flag so far
        and the result is the new one. In a dry run (`checking`) nothing
        changes and the result says whether the tile could take a first
        step. */
    method PushTile(r0: int, c0: int, yIncr: int, xIncr: int, movedBefore: bool) returns (moved: bool)
      requires tiles != null && tiles.Length == Size && InBounds(r0, c0) && IsDir(yIncr, xIncr)
      requires tiles[4 * r0 + c0].Full? && (checking ==> !movedBefore)
      modifies this`score, this`highest, tiles
      ensures checking ==> moved == CanStep(old(tiles[..]), 4 * r0 + c0, DirOf(yIncr, xIncr))
      ensures checking ==> tiles[..] == old(tiles[..]) && score == old(score) && highest == old(highest)
      ensures !checking ==>
        Step(tiles[..], moved, score, highest) == Push(Step(old(tiles[..]), movedBefore, old(score), old(highest)), 4 * r0 + c0, DirOf(yIncr, xIncr))
    {
      var dry := checking;
      ghost var d := DirOf(yIncr, xIncr);
      ghost var p := 4 * r0 + c0;
      ghost var goal := Push(Step(tiles[..], movedBefore, score, highest), p, d);
      moved := movedBefore;
      var r, c := r0, c0;
      var nextR := r + yIncr;
      var nextC := c + xIncr;
      AheadIsNeighbour(p, r, c, yIncr, xIncr);
      while InBounds(nextR, nextC)
        invariant InBounds(r, c) && p == 4 * r + c && tiles[p].Full?
        invariant nextR == r + yIncr && nextC == c + xIncr
        invariant Ahead(p, d) == if InBounds(nextR, nextC) then 4 * nextR + nextC else -1
        invariant !dry ==> Push(Step(tiles[..], moved, score, highest), p, d) == goal
        invariant dry ==> p == 4 * r0 + c0 && !moved && unchanged(this`score, this`highest, tiles)
        decreases ToEdge(p, d)
      {
        var next := tiles[4 * nextR + nextC];
        var curr := tiles[4 * r + c];
        ghost var q := 4 * nextR + nextC;
        if next == Empty {
          if dry {
            return true;
          }
          SlideTile(r, c, nextR, nextC, p, q, d, moved);
          r := nextR;
          c := nextC;
          nextR := nextR + yIncr;
          nextC := nextC + xIncr;
          moved := true;
          p := q;
          AheadIsNeighbour(p, r, c, yIncr, xIncr);
        } else if CanMergeWith(next.tile, curr) {
          if dry {
            return true;
          }
          MergeTile(r, c, nextR, nextC, p, q, d, moved);
          moved := true;
          return;
        } else {
          if !dry {
            PushStops(Step(tiles[..], moved, score, highest), p, d);
          }
          return;
        }
      }
      if !dry {
        PushStops(Step(tiles[..], moved, score, highest), p, d);
      }
    }

    /** The slide/merge phase of a move: every tile, in the traversal
        order from `countDownFrom`, is pushed in direction (`yIncr`,
        `xIncr`), and the result says whether anything changed. A dry run
        (`checking`) changes nothing and stops at the first tile that could
        take a step. */
    method PushAll(countDownFrom: int, yIncr: int, xIncr: int) returns (moved: bool)
      requires tiles != null && tiles.Length == Size && IsOrigin(countDownFrom) && IsDir(yIncr, xIncr)
      modifies this`score, this`highest, tiles
      ensures checking ==> moved == CanMove(old(tiles[..]), DirOf(yIncr, xIncr))
      ensures checking ==> tiles[..] == old(tiles[..]) && score == old(score) && highest == old(highest)
      ensures !checking ==>
        Step(tiles[..], moved, score, highest) == SlideAll(old(tiles[..]), old(score), old(highest), countDownFrom, DirOf(yIncr, xIncr))
    {
      var dry := checking;
      ghost var d := DirOf(yIncr, xIncr);
      ghost var s0 := Step(tiles[..], false, score, highest);
      moved := false;
      for i := 0 to 16
        modifies this`score, this`highest, tiles
        invariant !dry ==> Step(tiles[..], moved, score, highest) == Sweep(s0, countDownFrom, d, i)
        invariant dry ==> !moved && tiles[..] == s0.board && score == s0.score && highest == s0.highest
        invariant dry ==> NoStepAmong(s0.board, countDownFrom, d, i)
      {
        var j := Order(countDownFrom, i);
        var r := j / 4;
        var c := j % 4;
        assert 4 * r + c == j;
        if tiles[4 * r + c] == Empty {
          if dry {
            NoStepSplit(s0.board, countDownFrom, d, i);
          }
          continue;
        }
        moved := PushTile(r, c, yIncr, xIncr, moved);
        if dry && moved {
          return true;
        }
        if dry {
          NoStepSplit(s0.board, countDownFrom, d, i);
        }
      }
      if dry {
        NoStepMeansNoMove(s0.board, countDownFrom, d);
      }
    }

    /** The post-move policy, after a slide/merge phase whose change flag
        is `moved`: after a change, while `highest` is below 2048, the merged
        flags are reset, a tile spawns and the game is over when no direction
        can move; at 2048 the game is won. */
    method AfterMove(moved: bool, spawnPos: int, spawnFour: bool)
      requires Valid() && tiles != null && !checking && 0 <= spawnPos < Size
      requires moved ==> HasEmpty(tiles[..])
      modifies this, tiles
      ensures Valid() && tiles == old(tiles) && !checking
      ensures (View(), moved) == Policy(old(state), Step(old(tiles[..]), moved, old(score), old(highest)), spawnPos, spawnFour)
      decreases 3
    {
      if moved {
        if highest < Target {
          ClearFlagsKeepsTiles(tiles[..]);
          ClearMerged();
          AddRandomTile(spawnPos, spawnFour);
          var available := MovesAvailable();
          if !available {
            state := Over;
          }
        } else if highest == Target {
          state := Won;
        }
      }
    }

    /** One move: the slide/merge phase, then the post-move policy. A dry
        run (`checking`) leaves the game alone and answers whether some tile
        could take a first step in direction (`yIncr`, `xIncr`). */
    method Move(countDownFrom: int, yIncr: int, xIncr: int, spawnPos: int, spawnFour: bool) returns (moved: bool)
      requires Valid() && tiles != null
      requires IsOrigin(countDownFrom) && IsDir(yIncr, xIncr) && 0 <= spawnPos < Size
      modifies this, tiles
      ensures Valid() && tiles == old(tiles) && checking == old(checking)
      ensures checking ==> moved == CanMove(old(tiles[..]), DirOf(yIncr, xIncr)) && View() == old(View())
      ensures !checking ==> (View(), moved) == MoveOutcome(old(View()), countDownFrom, DirOf(yIncr, xIncr), spawnPos, spawnFour)
      decreases if checking then 0 else 4
    {
      ghost var b0 := tiles[..];
      moved := PushAll(countDownFrom, yIncr, xIncr);
      if !checking {
        DryRunMatchesMove(b0, old(score), old(highest), countDownFrom, DirOf(yIncr, xIncr));
        AfterMove(moved, spawnPos, spawnFour);
      }
    }

    /** Moves up: traversal from cell 0, direction (-1, 0). */
    method MoveUp(spawnPos: int, spawnFour: bool) returns (moved: bool)
      requires Valid() && tiles != null && 0 <= spawnPos < Size
      modifies this, tiles
      ensures Valid() && tiles == old(tiles) && checking == old(checking)
      ensures checking ==> moved == CanMove(old(tiles[..]), Up) && View() == old(View())
      ensures !checking ==> (View(), moved) == MoveOutcome(old(View()), 0, Up, spawnPos, spawnFour)
      decreases if checking then 1 else 5
    {
      moved := Move(0, -1, 0, spawnPos, spawnFour);
    }

    /** Moves down: traversal from cell 15, direction (1, 0). */
    method MoveDown(spawnPos: int, spawnFour: bool) returns (moved: bool)
      requires Valid() && tiles != null && 0 <= spawnPos < Size
      modifies this, tiles
      ensures Valid() && tiles == old(tiles) && checking == old(checking)
      ensures checking ==> moved == CanMove(old(tiles[..]), Down) && View() == old(View())
      ensures !checking ==> (View(), moved) == MoveOutcome(old(View()), 15, Down, spawnPos, spawnFour)
      decreases if checking then 1 else 5
    {
      moved := Move(15, 1, 0, spawnPos, spawnFour);
    }

    /** Moves left: traversal from cell 0, direction (0, -1). */
    method MoveLeft(spawnPos: int, spawnFour: bool) returns (moved: bool)
      requires Valid() && tiles != null && 0 <= spawnPos < Size
      modifies this, tiles
      ensures Valid() && tiles == old(tiles) && checking == old(checking)
      ensures checking ==> moved == CanMove(old(tiles[..]), Left) && View() == old(View())
      ensures !checking ==> (View(), moved) == MoveOutcome(old(View()), 0, Left, spawnPos, spawnFour)
      decreases if checking then 1 else 5
    {
      moved := Move(0, 0, -1, spawnPos, spawnFour);
    }

    /** Moves right: traversal from cell 15, direction (0, 1). */
    method MoveRight(spawnPos: int, spawnFour: bool) returns (moved: bool)
      requires Valid() && tiles != null && 0 <= spawnPos < Size
      modifies this, tiles
      ensures Valid() && tiles == old(tiles) && checking == old(checking)
      ensures checking ==> moved == CanMove(old(tiles[..]), Right) && View() == old(View())
      ensures !checking ==> (View(), moved) == MoveOutcome(old(View()), 15, Right, spawnPos, spawnFour)
      decreases if checking then 1 else 5
    {
      moved := Move(15, 0, 1, spawnPos, spawnFour);
    }

    /** Whether some direction can move, found by dry runs of the four moves
        in the order up, down, left, right, stopping at the first that can.
        The game is left as it was. The spawn arguments of the dry runs are
        never used. */
    method MovesAvailable() returns (hasMoves: bool)
      requires Valid() && tiles != null
      modifies this, tiles
      ensures Valid() && tiles == old(tiles) && !checking
      ensures hasMoves == AnyMove(old(tiles[..]))
      ensures View() == old(View())
      decreases 2
    {
      checking := true;
      hasMoves := MoveUp(0, false);
      if !hasMoves {
        hasMoves := MoveDown(0, false);
      }
      if !hasMoves {
        hasMoves := MoveLeft(0, false);
      }
      if !hasMoves {
        hasMoves := MoveRight(0, false);
      }
      checking := false;
    }

    /** Starts a game unless one is running: both counters to zero, state
        running, a fresh empty grid and two spawns (start indices `pos1` and
        `pos2`, values chosen by `four1` and `four2`). */
    method StartGame(pos1: int, four1: bool, pos2: int, four2: bool)
      requires Valid() && 0 <= pos1 < Size && 0 <= pos2 < Size
      modifies this
      ensures Valid() && tiles != null && checking == old(checking)
      ensures old(state) == Running ==> tiles == old(tiles) && View() == old(View())
      ensures old(state) != Running ==> fresh(tiles) && View() == GameView(StartBoard(pos1, four1, pos2, four2), 0, 0, Running)
    {
      if state != Running {
        score := 0;
        highest := 0;
        state := Running;
        tiles := new Cell[16](_ => Empty);
        assert tiles[..] == EmptyBoard();
        StartSpawns(pos1, four1, pos2, four2);
        AddRandomTile(pos1, four1);
        AddRandomTile(pos2, four2);
      }
    }
  }
}
