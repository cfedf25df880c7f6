/** The slide/merge engine as pure functions over boards.

    One move visits the 16 cells in the linear order `j = |countDownFrom - i|`
    (`Order`) and pushes every tile it finds step by step in the direction
    (dy, dx) until it leaves no empty cell ahead, meets a tile it cannot
    merge with, or merges once (`Push`). `Visit` handles one position of the
    traversal and `Sweep` the first `n` positions. The dry run asks, for the
    same direction, whether some tile has an empty or mergeable neighbour
    ahead of it (`CanMove`).

    These functions are the specification the imperative `Game.Move` is
    proved against; the lemmas below state what a move conserves, what it
    adds to the counters and when it reports a change.
 */
module Engine {
  import opened Tiles
  import opened Boards

  /** The four directions of a move. */
  datatype Dir = Up | Down | Left | Right

  /** The row delta of a direction, as `yIncr` is passed to `move`. */
  function Dy(d: Dir): int {
    match d
    case Up => -1
    case Down => 1
    case Left => 0
    case Right => 0
  }

  /** The column delta of a direction, as `xIncr` is passed to `move`. */
  function Dx(d: Dir): int {
    match d
    case Up => 0
    case Down => 0
    case Left => -1
    case Right => 1
  }

  /** The pairs (yIncr, xIncr) that name a direction: the four unit vectors. */
  predicate IsDir(dy: int, dx: int) {
    (dy == -1 && dx == 0) || (dy == 1 && dx == 0) || (dy == 0 && dx == -1) || (dy == 0 && dx == 1)
  }

  /** The direction named by the unit vector (dy, dx). */
  function DirOf(dy: int, dx: int): (d: Dir)
    requires IsDir(dy, dx)
    ensures Dy(d) == dy && Dx(d) == dx
  {
    if dy == -1 then Up else if dy == 1 then Down else if dx == -1 then Left else Right
  }

  /** The two traversal origins the four moves pass: 0 and 15. */
  predicate IsOrigin(countDownFrom: int) {
    countDownFrom == 0 || countDownFrom == Size - 1
  }

  /** The linear index visited at step `i` of the traversal: `|countDownFrom - i|`. */
  function Order(countDownFrom: int, i: int): (j: int)
    ensures IsOrigin(countDownFrom) && 0 <= i < Size ==> 0 <= j < Size
  {
    if countDownFrom >= i then countDownFrom - i else i - countDownFrom
  }

  /** The row of cell `p`. */
  function Row(p: int): int {
    if p < 4 then 0 else if p < 8 then 1 else if p < 12 then 2 else 3
  }

  /** The column of cell `p`. */
  function Col(p: int): int {
    p - 4 * Row(p)
  }

  /** Number of steps from cell `p` to the edge in direction `d`. */
  function ToEdge(p: int, d: Dir): nat
    requires 0 <= p < Size
  {
    match d
    case Up => Row(p)
    case Down => 3 - Row(p)
    case Left => Col(p)
    case Right => 3 - Col(p)
  }

  /** The cell next to `p` in direction `d`, or -1 when `p` is on that edge. */
  function Ahead(p: int, d: Dir): (q: int)
    requires 0 <= p < Size
    ensures q == -1 || (0 <= q < Size && q != p && ToEdge(q, d) < ToEdge(p, d))
  {
    match d
    case Up => if p >= 4 then p - 4 else -1
    case Down => if p < 12 then p + 4 else -1
    case Left => if Col(p) != 0 then p - 1 else -1
    case Right => if Col(p) != 3 then p + 1 else -1
  }

  /** `Ahead` is the grid neighbour (r + dy, c + dx) of (r, c), written as a
      linear index, whenever that neighbour is on the grid. */
  lemma AheadIsNeighbour(p: int, r: int, c: int, dy: int, dx: int)
    requires InBounds(r, c) && p == 4 * r + c && IsDir(dy, dx)
    ensures Ahead(p, DirOf(dy, dx)) == if InBounds(r + dy, c + dx) then 4 * (r + dy) + (c + dx) else -1
  {
  }

  /** The state a move threads through its loop: the board, whether anything
      moved, and the two counters. */
  datatype Step = Step(board: seq<Cell>, moved: bool, score: int, highest: int)

  /** The tile in cell `p` slides into the empty cell `q`. */
  function Slide(s: Step, p: int, q: int): (t: Step)
    requires IsBoard(s.board) && 0 <= p < Size && 0 <= q < Size && p != q
    ensures IsBoard(t.board) && t.moved && t.score == s.score && t.highest == s.highest
    ensures t.board[q] == s.board[p] && t.board[p].Empty?
  {
    Step(s.board[q := s.board[p]][p := Empty], true, s.score, s.highest)
  }

  /** The tile in cell `p` merges into the tile in cell `q`: the tile in `q`
      absorbs it, the score grows by the new value, and `highest` rises to the
      new value if that exceeds it. */
  function Merge(s: Step, p: int, q: int): (t: Step)
    requires IsBoard(s.board) && 0 <= p < Size && 0 <= q < Size && p != q
    requires s.board[q].Full?
    ensures IsBoard(t.board) && t.moved && t.board[p].Empty?
  {
    var (merged, value) := MergeWith(s.board[q].tile, s.board[p]);
    var highest := if value > s.highest then value else s.highest;
    Step(s.board[q := Full(merged)][p := Empty], true, s.score + value, highest)
  }

  /** Pushes the tile in cell `p` one cell at a time in direction `d`: into an
      empty cell it slides and goes on; onto a tile that can absorb it it
      merges and stops; at the edge or at any other tile it stops. */
  function Push(s: Step, p: int, d: Dir): (t: Step)
    requires IsBoard(s.board) && 0 <= p < Size && s.board[p].Full?
    ensures IsBoard(t.board)
    decreases ToEdge(p, d)
  {
    var q := Ahead(p, d);
    if q == -1 then s
    else if s.board[q].Empty? then Push(Slide(s, p, q), q, d)
    else if CanMergeWith(s.board[q].tile, s.board[p]) then Merge(s, p, q)
    else s
  }

  /** A push into the empty neighbour ahead slides the tile there and goes on from that cell. */
  lemma PushSlides(s: Step, p: int, q: int, d: Dir)
    requires IsBoard(s.board) && 0 <= p < Size && s.board[p].Full?
    requires q == Ahead(p, d) && q != -1 && s.board[q].Empty?
    ensures Push(s, p, d) == Push(Slide(s, p, q), q, d)
  {
  }

  /** A push onto a neighbour that can absorb the tile merges the two and stops. */
  lemma PushMerges(s: Step, p: int, q: int, d: Dir)
    requires IsBoard(s.board) && 0 <= p < Size && s.board[p].Full?
    requires q == Ahead(p, d) && q != -1 && s.board[q].Full? && CanMergeWith(s.board[q].tile, s.board[p])
    ensures Push(s, p, d) == Merge(s, p, q)
  {
  }

  /** A push at the edge, or onto a neighbour that cannot absorb the tile, changes nothing. */
  lemma PushStops(s: Step, p: int, d: Dir)
    requires IsBoard(s.board) && 0 <= p < Size && s.board[p].Full?
    requires var q := Ahead(p, d); q == -1 || (s.board[q].Full? && !CanMergeWith(s.board[q].tile, s.board[p]))
    ensures Push(s, p, d) == s
  {
  }

  /** Step `i` of the traversal: pushes the tile at `Order(countDownFrom, i)`, if any. */
  function Visit(s: Step, countDownFrom: int, d: Dir, i: int): (t: Step)
    requires IsBoard(s.board) && IsOrigin(countDownFrom) && 0 <= i < Size
    ensures IsBoard(t.board)
  {
    var j := Order(countDownFrom, i);
    if s.board[j].Empty? then s else Push(s, j, d)
  }

  /** The first `n` steps of the traversal, in order. */
  function Sweep(s: Step, countDownFrom: int, d: Dir, n: int): (t: Step)
    requires IsBoard(s.board) && IsOrigin(countDownFrom) && 0 <= n <= Size
    ensures IsBoard(t.board)
    decreases n
  {
    if n == 0 then s else Visit(Sweep(s, countDownFrom, d, n - 1), countDownFrom, d, n - 1)
  }

  /** The slide/merge phase of a whole move, starting from `moved = false`. */
  function SlideAll(b: seq<Cell>, score: int, highest: int, countDownFrom: int, d: Dir): (t: Step)
    requires IsBoard(b) && IsOrigin(countDownFrom)
    ensures IsBoard(t.board)
  {
    Sweep(Step(b, false, score, highest), countDownFrom, d, Size)
  }

  /** The tile in cell `p` has a neighbour in direction `d` that is empty or
      can absorb it: the dry-run test of one cell. */
  predicate CanStep(b: seq<Cell>, p: int, d: Dir)
    requires IsBoard(b) && 0 <= p < Size
  {
    var q := Ahead(p, d);
    b[p].Full? && q != -1 && (b[q].Empty? || CanMergeWith(b[q].tile, b[p]))
  }

  /** Some tile can take a first step in direction `d`. */
  predicate CanMove(b: seq<Cell>, d: Dir)
    requires IsBoard(b)
  {
    exists p :: 0 <= p < Size && CanStep(b, p, d)
  }

  /** Some tile can take a first step in one of the four directions, tried in
      the order up, down, left, right. */
  predicate AnyMove(b: seq<Cell>)
    requires IsBoard(b)
  {
    CanMove(b, Up) || CanMove(b, Down) || CanMove(b, Left) || CanMove(b, Right)
  }

  // ---------------------------------------------------------------------------
  // The traversal

  /** For both origins the traversal visits every cell exactly once: in
      ascending order from 0 and in descending order from 15. */
  lemma TraversalVisitsEachCellOnce(countDownFrom: int)
    requires IsOrigin(countDownFrom)
    ensures forall i :: 0 <= i < Size ==> 0 <= Order(countDownFrom, i) < Size
    ensures forall i, k :: 0 <= i < k < Size ==> Order(countDownFrom, i) != Order(countDownFrom, k)
    ensures countDownFrom == 0 ==> forall i :: 0 <= i < Size ==> Order(countDownFrom, i) == i
    ensures countDownFrom == Size - 1 ==> forall i :: 0 <= i < Size ==> Order(countDownFrom, i) == Size - 1 - i
  {
  }

  /** The traversal origin the move in direction `d` passes: 0 for up and
      left, 15 for down and right. */
  function OriginFor(d: Dir): (countDownFrom: int)
    ensures IsOrigin(countDownFrom)
  {
    if d == Up || d == Left then 0 else Size - 1
  }

  /** Cells `p` and `q` lie on one line of motion in direction `d`: the same
      column for up and down, the same row for left and right. */
  predicate SameLine(p: int, q: int, d: Dir) {
    if d == Up || d == Down then Col(p) == Col(q) else Row(p) == Row(q)
  }

  /** With the origin each direction's move passes, of two cells on one line
      of motion the one nearer the edge the tiles move towards is visited
      first, so a tile is pushed only after every tile ahead of it. */
  lemma FarthestFirst(d: Dir, i: int, k: int)
    requires 0 <= i < k < Size
    requires SameLine(Order(OriginFor(d), i), Order(OriginFor(d), k), d)
    ensures ToEdge(Order(OriginFor(d), i), d) < ToEdge(Order(OriginFor(d), k), d)
  {
  }

  // ---------------------------------------------------------------------------
  // What a push conserves

  /** Sliding the tile at `p` into the empty cell `q` keeps every total whose
      per-cell quantity is zero on an empty cell. */
  lemma SlideTotal(b: seq<Cell>, p: int, q: int, f: Cell -> int)
    requires 0 <= p < |b| && 0 <= q < |b| && p != q && b[q].Empty? && f(Empty) == 0
    ensures Total(b[q := b[p]][p := Empty], f) == Total(b, f)
  {
    TotalUpdate(b, q, b[p], f);
    TotalUpdate(b[q := b[p]], p, Empty, f);
  }

  /** Merging the tile at `p` into the tile at `q` changes a total by the
      difference the merge makes at the two cells. */
  lemma MergeTotal(b: seq<Cell>, p: int, q: int, x: Cell, f: Cell -> int)
    requires 0 <= p < |b| && 0 <= q < |b| && p != q && f(Empty) == 0
    ensures Total(b[q := x][p := Empty], f) == Total(b, f) - f(b[q]) + f(x) - f(b[p])
  {
    TotalUpdate(b, q, x, f);
    TotalUpdate(b[q := x], p, Empty, f);
  }

  /** A slide relocates one tile: the sum of values, the numbers of tiles
      and of merged tiles, the merged sum and the build score stay; tile
      values stay powers of two; merged tiles stay covered by `highest` and
      are not lost; and the cell left behind is empty. */
  lemma SlideFacts(s: Step, p: int, q: int, v: int)
    requires IsBoard(s.board) && 0 <= p < Size && 0 <= q < Size && p != q && s.board[q].Empty?
    ensures var t := Slide(s, p, q);
      && Sum(t.board) == Sum(s.board)
      && Count(t.board) == Count(s.board)
      && MergedCount(t.board) == MergedCount(s.board)
      && MergedSum(t.board) == MergedSum(s.board)
      && BuildTotal(t.board) == BuildTotal(s.board)
      && (AllTileValues(s.board) ==> AllTileValues(t.board))
      && (MergedBounded(s.board, s.highest) ==> MergedBounded(t.board, t.highest))
      && (HasMergedValue(s.board, v) ==> HasMergedValue(t.board, v))
      && HasEmpty(t.board)
  {
    var b := s.board;
    var b1 := Slide(s, p, q).board;
    assert b1 == b[q := b[p]][p := Empty];
    SlideTotal(b, p, q, CellValue);
    SlideTotal(b, p, q, Occupied);
    SlideTotal(b, p, q, MergedOne);
    SlideTotal(b, p, q, MergedValue);
    SlideTotal(b, p, q, CellBuildScore);
    if HasMergedValue(b, v) {
      var w :| 0 <= w < |b| && b[w].Full? && b[w].tile.merged && b[w].tile.value == v;
      if w == p { assert b1[q] == b[w]; } else { assert b1[w] == b[w]; }
    }
  }

  /** A merge keeps the sum of tile values, frees one cell and marks one more
      tile merged, adds the new value (twice the absorbing tile's) both to the
      score and to the merged sum, sets `highest` to the larger of its old
      value and the new value, keeps tile values
      powers of two and `0 <= highest <= score`, and loses no merged tile. */
  lemma MergeFacts(s: Step, p: int, q: int, v: int)
    requires IsBoard(s.board) && 0 <= p < Size && 0 <= q < Size && p != q && s.board[q].Full?
    requires CanMergeWith(s.board[q].tile, s.board[p])
    ensures var t := Merge(s, p, q);
      && Sum(t.board) == Sum(s.board)
      && Count(t.board) == Count(s.board) - 1
      && MergedCount(t.board) == MergedCount(s.board) + 1
      && t.score == s.score + 2 * s.board[q].tile.value
      && t.highest == (if 2 * s.board[q].tile.value > s.highest then 2 * s.board[q].tile.value else s.highest)
      && t.score - s.score == MergedSum(t.board) - MergedSum(s.board)
      && (AllTileValues(s.board) ==> AllTileValues(t.board))
      && t.highest >= s.highest
      && (MergedBounded(s.board, s.highest) ==> MergedBounded(t.board, t.highest))
      && (t.highest == s.highest || HasMergedValue(t.board, t.highest))
      && (HasMergedValue(s.board, v) ==> HasMergedValue(t.board, v))
      && (AllTileValues(s.board) && 0 <= s.highest <= s.score ==> 0 <= t.highest <= t.score)
      && HasEmpty(t.board)
  {
    var b := s.board;
    var next, curr := b[q].tile, b[p];
    var (m, value) := MergeWith(next, curr);
    var t := Merge(s, p, q);
    assert t.board == b[q := Full(m)][p := Empty];
    assert t.board[q] == Full(m);
    MergeTotal(b, p, q, Full(m), CellValue);
    MergeTotal(b, p, q, Full(m), Occupied);
    MergeTotal(b, p, q, Full(m), MergedOne);
    MergeTotal(b, p, q, Full(m), MergedValue);
    if AllTileValues(b) {
      MergeKeepsTileValue(next, curr);
    }
    if HasMergedValue(b, v) {
      var w :| 0 <= w < |b| && b[w].Full? && b[w].tile.merged && b[w].tile.value == v;
      assert t.board[w] == b[w];
    }
  }

  /** One push keeps the sum of tile values; each merge turns one unmerged
      tile into a merged one and frees one cell, so occupied plus merged cells
      stay the same; the score grows by exactly the values of the tiles that
      became merged; tile values stay powers of two. */
  lemma {:induction false} PushConservesTotals(s: Step, p: int, d: Dir)
    requires IsBoard(s.board) && 0 <= p < Size && s.board[p].Full?
    ensures var t := Push(s, p, d);
      && Sum(t.board) == Sum(s.board)
      && Count(t.board) + MergedCount(t.board) == Count(s.board) + MergedCount(s.board)
      && t.score - s.score == MergedSum(t.board) - MergedSum(s.board)
      && (AllTileValues(s.board) ==> AllTileValues(t.board))
    decreases ToEdge(p, d)
  {
    var q := Ahead(p, d);
    if q == -1 {
    } else if s.board[q].Empty? {
      SlideFacts(s, p, q, 0);
      PushConservesTotals(Slide(s, p, q), q, d);
    } else if CanMergeWith(s.board[q].tile, s.board[p]) {
      MergeFacts(s, p, q, 0);
    }
  }

  /** One push never lowers `highest`; afterwards every merged tile is still
      covered by `highest` if it was before; `highest` either kept its value
      or equals the value of a merged tile on the board; and
      `0 <= highest <= score` is kept. */
  lemma {:induction false} PushCounters(s: Step, p: int, d: Dir)
    requires IsBoard(s.board) && 0 <= p < Size && s.board[p].Full?
    ensures var t := Push(s, p, d);
      && t.highest >= s.highest
      && (MergedBounded(s.board, s.highest) ==> MergedBounded(t.board, t.highest))
      && (t.highest == s.highest || HasMergedValue(t.board, t.highest))
      && (AllTileValues(s.board) && 0 <= s.highest <= s.score ==> 0 <= t.highest <= t.score)
    decreases ToEdge(p, d)
  {
    var q := Ahead(p, d);
    if q == -1 {
    } else if s.board[q].Empty? {
      SlideFacts(s, p, q, 0);
      PushCounters(Slide(s, p, q), q, d);
      PushKeepsMerged(Slide(s, p, q), q, d, s.highest);
    } else if CanMergeWith(s.board[q].tile, s.board[p]) {
      MergeFacts(s, p, q, 0);
    }
  }

  /** A push consumes no merged tile: a merged tile of value `v` on the board
      before is still there afterwards. */
  lemma {:induction false} PushKeepsMerged(s: Step, p: int, d: Dir, v: int)
    requires IsBoard(s.board) && 0 <= p < Size && s.board[p].Full?
    ensures HasMergedValue(s.board, v) ==> HasMergedValue(Push(s, p, d).board, v)
    decreases ToEdge(p, d)
  {
    var q := Ahead(p, d);
    if q == -1 {
    } else if s.board[q].Empty? {
      SlideFacts(s, p, q, v);
      PushKeepsMerged(Slide(s, p, q), q, d, v);
    } else if CanMergeWith(s.board[q].tile, s.board[p]) {
      MergeFacts(s, p, q, v);
    }
  }

  /** A push reports a change exactly when the tile can take its first step,
      and a push that cannot step leaves everything as it was. Once a move
      has changed something, the board keeps an empty cell: the cell a tile
      last left is empty. */
  lemma {:induction false} PushMoved(s: Step, p: int, d: Dir)
    requires IsBoard(s.board) && 0 <= p < Size && s.board[p].Full?
    ensures var t := Push(s, p, d);
      && (t.moved <==> s.moved || CanStep(s.board, p, d))
      && (!CanStep(s.board, p, d) ==> t == s)
      && ((s.moved ==> HasEmpty(s.board)) ==> (t.moved ==> HasEmpty(t.board)))
    decreases ToEdge(p, d)
  {
    var q := Ahead(p, d);
    if q == -1 {
    } else if s.board[q].Empty? {
      PushMoved(Slide(s, p, q), q, d);
    } else if CanMergeWith(s.board[q].tile, s.board[p]) {
    }
  }

  /** A push creates no unmerged tile above a bound `bound` on the unmerged
      tiles, and a merge of two such tiles yields at most `2 * bound`, so
      `highest` stays within `2 * bound` if it was. */
  lemma {:induction false} PushBounds(s: Step, p: int, d: Dir, bound: int)
    requires IsBoard(s.board) && 0 <= p < Size && s.board[p].Full?
    requires UnmergedBounded(s.board, bound)
    ensures var t := Push(s, p, d);
      && UnmergedBounded(t.board, bound)
      && (s.highest <= 2 * bound ==> t.highest <= 2 * bound)
    decreases ToEdge(p, d)
  {
    var q := Ahead(p, d);
    if q == -1 {
    } else if s.board[q].Empty? {
      var s1 := Slide(s, p, q);
      assert s1.board == s.board[q := s.board[p]][p := Empty];
      PushBounds(s1, q, d, bound);
    } else if CanMergeWith(s.board[q].tile, s.board[p]) {
      var t := Merge(s, p, q);
      var (m, value) := MergeWith(s.board[q].tile, s.board[p]);
      assert t.board == s.board[q := Full(m)][p := Empty];
    }
  }

  /** Each merge adds to the score exactly what it adds to the score of
      building the board's tiles out of 2s; a slide changes neither. So one
      push keeps the difference between the two. */
  lemma {:induction false} PushBuildScore(s: Step, p: int, d: Dir)
    requires IsBoard(s.board) && 0 <= p < Size && s.board[p].Full?
    requires AllTileValues(s.board)
    ensures var t := Push(s, p, d);
      t.score - s.score == BuildTotal(t.board) - BuildTotal(s.board)
    decreases ToEdge(p, d)
  {
    var q := Ahead(p, d);
    if q == -1 {
    } else if s.board[q].Empty? {
      SlideFacts(s, p, q, 0);
      PushBuildScore(Slide(s, p, q), q, d);
    } else if CanMergeWith(s.board[q].tile, s.board[p]) {
      var (m, value) := MergeWith(s.board[q].tile, s.board[p]);
      assert Merge(s, p, q).board == s.board[q := Full(m)][p := Empty];
      MergeTotal(s.board, p, q, Full(m), CellBuildScore);
      BuildScoreDouble(s.board[q].tile.value);
    }
  }

  // ---------------------------------------------------------------------------
  // What a sweep conserves

  /** Over the first `n` traversal steps the score grows by exactly what the
      score of building the board's tiles out of 2s grows by. */
  lemma {:induction false} SweepBuildScore(s: Step, countDownFrom: int, d: Dir, n: int)
    requires IsBoard(s.board) && IsOrigin(countDownFrom) && 0 <= n <= Size
    requires AllTileValues(s.board)
    ensures var t := Sweep(s, countDownFrom, d, n);
      t.score - s.score == BuildTotal(t.board) - BuildTotal(s.board)
    decreases n
  {
    if n > 0 {
      var u := Sweep(s, countDownFrom, d, n - 1);
      assert Sweep(s, countDownFrom, d, n) == Visit(u, countDownFrom, d, n - 1);
      SweepBuildScore(s, countDownFrom, d, n - 1);
      SweepConservesTotals(s, countDownFrom, d, n - 1);
      var j := Order(countDownFrom, n - 1);
      if u.board[j].Full? {
        PushBuildScore(u, j, d);
      }
    }
  }

  /** The slide/merge phase over the first `n` traversal steps keeps the sum of
      tile values, frees exactly one cell per merge, adds exactly the values of
      the newly merged tiles to the score, and keeps tile values powers of two. */
  lemma {:induction false} SweepConservesTotals(s: Step, countDownFrom: int, d: Dir, n: int)
    requires IsBoard(s.board) && IsOrigin(countDownFrom) && 0 <= n <= Size
    ensures var t := Sweep(s, countDownFrom, d, n);
      && Sum(t.board) == Sum(s.board)
      && Count(t.board) + MergedCount(t.board) == Count(s.board) + MergedCount(s.board)
      && t.score - s.score == MergedSum(t.board) - MergedSum(s.board)
      && (AllTileValues(s.board) ==> AllTileValues(t.board))
    decreases n
  {
    if n > 0 {
      var u := Sweep(s, countDownFrom, d, n - 1);
      assert Sweep(s, countDownFrom, d, n) == Visit(u, countDownFrom, d, n - 1);
      SweepConservesTotals(s, countDownFrom, d, n - 1);
      VisitConservesTotals(u, countDownFrom, d, n - 1);
    }
  }

  /** One traversal step conserves what a push conserves. */
  lemma VisitConservesTotals(s: Step, countDownFrom: int, d: Dir, i: int)
    requires IsBoard(s.board) && IsOrigin(countDownFrom) && 0 <= i < Size
    ensures var t := Visit(s, countDownFrom, d, i);
      && Sum(t.board) == Sum(s.board)
      && Count(t.board) + MergedCount(t.board) == Count(s.board) + MergedCount(s.board)
      && t.score - s.score == MergedSum(t.board) - MergedSum(s.board)
      && (AllTileValues(s.board) ==> AllTileValues(t.board))
  {
    var j := Order(countDownFrom, i);
    if s.board[j].Full? {
      PushConservesTotals(s, j, d);
    }
  }

  /** Over the first `n` traversal steps `highest` never drops; if every merged
      tile was covered by `highest` before, it is after; `highest` either kept
      its value or equals the value of a merged tile on the board; and
      `0 <= highest <= score` is kept. */
  lemma {:induction false} SweepCounters(s: Step, countDownFrom: int, d: Dir, n: int)
    requires IsBoard(s.board) && IsOrigin(countDownFrom) && 0 <= n <= Size
    ensures var t := Sweep(s, countDownFrom, d, n);
      && t.highest >= s.highest
      && (MergedBounded(s.board, s.highest) ==> MergedBounded(t.board, t.highest))
      && (t.highest == s.highest || HasMergedValue(t.board, t.highest))
      && (AllTileValues(s.board) && 0 <= s.highest <= s.score ==> 0 <= t.highest <= t.score)
    decreases n
  {
    if n > 0 {
      var u := Sweep(s, countDownFrom, d, n - 1);
      assert Sweep(s, countDownFrom, d, n) == Visit(u, countDownFrom, d, n - 1);
      SweepCounters(s, countDownFrom, d, n - 1);
      SweepConservesTotals(s, countDownFrom, d, n - 1);
      VisitCounters(u, countDownFrom, d, n - 1);
    }
  }

  /** One traversal step keeps what a push keeps about the counters. */
  lemma VisitCounters(s: Step, countDownFrom: int, d: Dir, i: int)
    requires IsBoard(s.board) && IsOrigin(countDownFrom) && 0 <= i < Size
    ensures var t := Visit(s, countDownFrom, d, i);
      && t.highest >= s.highest
      && (MergedBounded(s.board, s.highest) ==> MergedBounded(t.board, t.highest))
      && (HasMergedValue(s.board, s.highest) ==> HasMergedValue(t.board, t.highest))
      && (t.highest == s.highest || HasMergedValue(t.board, t.highest))
      && (AllTileValues(s.board) && 0 <= s.highest <= s.score ==> 0 <= t.highest <= t.score)
  {
    var j := Order(countDownFrom, i);
    if s.board[j].Full? {
      PushCounters(s, j, d);
      PushKeepsMerged(s, j, d, s.highest);
    }
  }

  /** The first `n` traversal steps consume no merged tile. */
  lemma {:induction false} SweepKeepsMerged(s: Step, countDownFrom: int, d: Dir, n: int, v: int)
    requires IsBoard(s.board) && IsOrigin(countDownFrom) && 0 <= n <= Size
    ensures HasMergedValue(s.board, v) ==> HasMergedValue(Sweep(s, countDownFrom, d, n).board, v)
    decreases n
  {
    if n > 0 {
      var u := Sweep(s, countDownFrom, d, n - 1);
      assert Sweep(s, countDownFrom, d, n) == Visit(u, countDownFrom, d, n - 1);
      SweepKeepsMerged(s, countDownFrom, d, n - 1, v);
      var j := Order(countDownFrom, n - 1);
      if u.board[j].Full? {
        PushKeepsMerged(u, j, d, v);
      }
    }
  }

  /** The first `n` traversal steps keep a bound on the unmerged tiles, and
      keep `highest` within twice that bound. */
  lemma {:induction false} SweepBounds(s: Step, countDownFrom: int, d: Dir, n: int, bound: int)
    requires IsBoard(s.board) && IsOrigin(countDownFrom) && 0 <= n <= Size
    requires UnmergedBounded(s.board, bound)
    ensures var t := Sweep(s, countDownFrom, d, n);
      && UnmergedBounded(t.board, bound)
      && (s.highest <= 2 * bound ==> t.highest <= 2 * bound)
    decreases n
  {
    if n > 0 {
      var u := Sweep(s, countDownFrom, d, n - 1);
      assert Sweep(s, countDownFrom, d, n) == Visit(u, countDownFrom, d, n - 1);
      SweepBounds(s, countDownFrom, d, n - 1, bound);
      var j := Order(countDownFrom, n - 1);
      if u.board[j].Full? {
        PushBounds(u, j, d, bound);
      }
    }
  }

  /** None of the first `n` cells of the traversal holds a tile that can take
      a first step in direction `d`. */
  predicate NoStepAmong(b: seq<Cell>, countDownFrom: int, d: Dir, n: int)
    requires IsBoard(b) && IsOrigin(countDownFrom) && 0 <= n <= Size
  {
    forall k :: 0 <= k < n ==> !CanStep(b, Order(countDownFrom, k), d)
  }

  /** `NoStepAmong` for one more cell is `NoStepAmong` so far and no step
      from the next cell visited. */
  lemma NoStepSplit(b: seq<Cell>, countDownFrom: int, d: Dir, n: int)
    requires IsBoard(b) && IsOrigin(countDownFrom) && 0 <= n < Size
    ensures NoStepAmong(b, countDownFrom, d, n + 1) <==>
      NoStepAmong(b, countDownFrom, d, n) && !CanStep(b, Order(countDownFrom, n), d)
  {
  }

  /** One traversal step reports a change exactly when the change flag was
      already set or the visited cell's tile can take its first step, and
      changes nothing when it cannot. It keeps an empty cell once a change
      is reported. */
  lemma VisitMoved(s: Step, countDownFrom: int, d: Dir, i: int)
    requires IsBoard(s.board) && IsOrigin(countDownFrom) && 0 <= i < Size
    ensures var t := Visit(s, countDownFrom, d, i);
      && (t.moved <==> s.moved || CanStep(s.board, Order(countDownFrom, i), d))
      && (!CanStep(s.board, Order(countDownFrom, i), d) ==> t == s)
      && ((s.moved ==> HasEmpty(s.board)) ==> (t.moved ==> HasEmpty(t.board)))
  {
    var j := Order(countDownFrom, i);
    if s.board[j].Full? {
      PushMoved(s, j, d);
    }
  }

  /** Starting from `moved = false`, the first `n` traversal steps report a
      change exactly when one of the visited cells could take a first step on
      the original board; when they report none, nothing changed at all; and
      when they report one, the board has an empty cell. */
  lemma {:induction false} SweepMoved(s: Step, countDownFrom: int, d: Dir, n: int)
    requires IsBoard(s.board) && IsOrigin(countDownFrom) && 0 <= n <= Size
    requires !s.moved
    ensures var t := Sweep(s, countDownFrom, d, n);
      && (t.moved <==> !NoStepAmong(s.board, countDownFrom, d, n))
      && (!t.moved ==> t == s)
      && (t.moved ==> HasEmpty(t.board))
    decreases n
  {
    if n > 0 {
      var u := Sweep(s, countDownFrom, d, n - 1);
      assert Sweep(s, countDownFrom, d, n) == Visit(u, countDownFrom, d, n - 1);
      SweepMoved(s, countDownFrom, d, n - 1);
      VisitMoved(u, countDownFrom, d, n - 1);
      NoStepSplit(s.board, countDownFrom, d, n - 1);
    }
  }

  /** The dry run agrees with the real move: a direction can move, in the
      sense of its dry-run test, exactly when the slide/merge phase in that
      direction would report a change; when it cannot, the slide/merge phase
      changes neither the board nor the counters. A change always leaves an
      empty cell for the spawn that follows. */
  lemma DryRunMatchesMove(b: seq<Cell>, score: int, highest: int, countDownFrom: int, d: Dir)
    requires IsBoard(b) && IsOrigin(countDownFrom)
    ensures var t := SlideAll(b, score, highest, countDownFrom, d);
      && (t.moved <==> CanMove(b, d))
      && (!t.moved ==> t.board == b && t.score == score && t.highest == highest)
      && (t.moved ==> HasEmpty(t.board))
  {
    SweepMoved(Step(b, false, score, highest), countDownFrom, d, Size);
    TraversalVisitsEachCellOnce(countDownFrom);
    if CanMove(b, d) {
      var p :| 0 <= p < Size && CanStep(b, p, d);
      var k := if countDownFrom == 0 then p else Size - 1 - p;
      assert Order(countDownFrom, k) == p;
    }
  }

  /** A traversal in which no visited tile can take a first step finds that
      the direction cannot move. */
  lemma NoStepMeansNoMove(b: seq<Cell>, countDownFrom: int, d: Dir)
    requires IsBoard(b) && IsOrigin(countDownFrom)
    requires NoStepAmong(b, countDownFrom, d, Size)
    ensures !CanMove(b, d)
  {
    forall p | 0 <= p < Size
      ensures !CanStep(b, p, d)
    {
      var k := if countDownFrom == 0 then p else Size - 1 - p;
      assert Order(countDownFrom, k) == p;
    }
  }


  // ---------------------------------------------------------------------------
  // Worked examples, with shorthands for the cells they write out

  /** Traversal steps that only meet empty cells change nothing. */
  lemma {:induction false} SweepOverEmpty(s: Step, countDownFrom: int, d: Dir, n: int, m: int)
    requires IsBoard(s.board) && IsOrigin(countDownFrom) && 0 <= n <= m <= Size
    requires forall i :: n <= i < m ==> Sweep(s, countDownFrom, d, n).board[Order(countDownFrom, i)].Empty?
    ensures Sweep(s, countDownFrom, d, m) == Sweep(s, countDownFrom, d, n)
    decreases m
  {
    if m > n {
      SweepOverEmpty(s, countDownFrom, d, n, m - 1);
    }
  }

  /** An unmerged tile of value `v`. */
  function Unmerged(v: int): Cell {
    Full(Tile(v, false))
  }

  /** A tile of value `v` merged during the current move. */
  function MergedTile(v: int): Cell {
    Full(Tile(v, true))
  }

  /** `n` empty cells. */
  function Blank(n: nat): seq<Cell> {
    seq(n, _ => Empty)
  }

  /** Two 2s at the left of the top row, moved left, become one merged 4 in
      the corner, and the score and `highest` become 4. */
  lemma ExamplePairMerges()
    ensures SlideAll([Unmerged(2), Unmerged(2)] + Blank(14), 0, 0, 0, Left) == Step([MergedTile(4)] + Blank(15), true, 4, 4)
  {
    var s := Step([Unmerged(2), Unmerged(2)] + Blank(14), false, 0, 0);
    var t := Step([MergedTile(4)] + Blank(15), true, 4, 4);
    assert Sweep(s, 0, Left, 1) == s;
    assert Push(s, 1, Left) == Merge(s, 1, 0);
    assert Merge(s, 1, 0).board == t.board;
    assert Sweep(s, 0, Left, 2) == t;
    SweepOverEmpty(s, 0, Left, 2, Size);
  }

  /** The top row 2 2 4 4 moved left becomes 4 8 and two empty cells: the
      first 4 slides into the gap and stops at the merged 4 instead of
      merging with it, and the second 4 merges with it. The score grows by
      4 + 8. */
  lemma ExampleNoDoubleMerge()
    ensures SlideAll([Unmerged(2), Unmerged(2), Unmerged(4), Unmerged(4)] + Blank(12), 0, 0, 0, Left)
         == Step([MergedTile(4), MergedTile(8)] + Blank(14), true, 12, 8)
  {
    var s := Step([Unmerged(2), Unmerged(2), Unmerged(4), Unmerged(4)] + Blank(12), false, 0, 0);
    var s2 := Step([MergedTile(4), Empty, Unmerged(4), Unmerged(4)] + Blank(12), true, 4, 4);
    var s3 := Step([MergedTile(4), Unmerged(4), Empty, Unmerged(4)] + Blank(12), true, 4, 4);
    var t := Step([MergedTile(4), MergedTile(8)] + Blank(14), true, 12, 8);
    assert Sweep(s, 0, Left, 1) == s;
    assert Merge(s, 1, 0).board == s2.board;
    assert Sweep(s, 0, Left, 2) == s2;
    assert Slide(s2, 2, 1).board == s3.board;
    assert Push(s2, 2, Left) == Push(s3, 1, Left) == s3;
    assert Sweep(s, 0, Left, 3) == s3;
    var s4 := Step([MergedTile(4), Unmerged(4), Unmerged(4), Empty] + Blank(12), true, 4, 4);
    assert Slide(s3, 3, 2).board == s4.board;
    assert Merge(s4, 2, 1).board == t.board;
    assert Push(s3, 3, Left) == Push(s4, 2, Left) == t;
    assert Sweep(s, 0, Left, 4) == t;
    SweepOverEmpty(s, 0, Left, 4, Size);
  }

  // ---------------------------------------------------------------------------
  // When no direction can move

  /** In row `r`, an empty cell at column `c1` and a tile at column `c2` let
      some tile of the row take a first step left or right. */
  lemma {:induction false} RowGapGivesMove(b: seq<Cell>, r: int, c1: int, c2: int)
    requires IsBoard(b) && InBounds(r, c1) && InBounds(r, c2)
    requires b[4 * r + c1].Empty? && b[4 * r + c2].Full?
    ensures CanMove(b, Left) || CanMove(b, Right)
    decreases if c1 < c2 then c2 - c1 else c1 - c2
  {
    if c1 < c2 {
      if b[4 * r + c1 + 1].Full? {
        assert CanStep(b, 4 * r + c1 + 1, Left);
      } else {
        RowGapGivesMove(b, r, c1 + 1, c2);
      }
    } else {
      if b[4 * r + c1 - 1].Full? {
        assert CanStep(b, 4 * r + c1 - 1, Right);
      } else {
        RowGapGivesMove(b, r, c1 - 1, c2);
      }
    }
  }

  /** In column `c`, an empty cell at row `r1` and a tile at row `r2` let
      some tile of the column take a first step up or down. */
  lemma {:induction false} ColumnGapGivesMove(b: seq<Cell>, c: int, r1: int, r2: int)
    requires IsBoard(b) && InBounds(r1, c) && InBounds(r2, c)
    requires b[4 * r1 + c].Empty? && b[4 * r2 + c].Full?
    ensures CanMove(b, Up) || CanMove(b, Down)
    decreases if r1 < r2 then r2 - r1 else r1 - r2
  {
    if r1 < r2 {
      if b[4 * (r1 + 1) + c].Full? {
        assert CanStep(b, 4 * (r1 + 1) + c, Up);
      } else {
        ColumnGapGivesMove(b, c, r1 + 1, r2);
      }
    } else {
      if b[4 * (r1 - 1) + c].Full? {
        assert CanStep(b, 4 * (r1 - 1) + c, Down);
      } else {
        ColumnGapGivesMove(b, c, r1 - 1, r2);
      }
    }
  }

  /** A board holding a tile and an empty cell always has a move: some tile
      can slide in one of the four directions. So a board on which no
      direction can move and that holds a tile is full. */
  lemma GapGivesMove(b: seq<Cell>, e: int, f: int)
    requires IsBoard(b) && 0 <= e < Size && 0 <= f < Size && b[e].Empty? && b[f].Full?
    ensures AnyMove(b)
  {
    var m := 4 * (e / 4) + f % 4;
    if b[m].Full? {
      RowGapGivesMove(b, e / 4, e % 4, f % 4);
    } else {
      assert 4 * (f / 4) + f % 4 == f;
      ColumnGapGivesMove(b, f % 4, e / 4, f / 4);
    }
  }
}
