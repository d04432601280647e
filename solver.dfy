/**
 * The solved-state check of ESPipes: a depth-first search from the start
 * cell over the connected bits of the board, with a marker array `path`
 * that records which cells have been entered.
 */
module Connectivity {
  import opened Pipes
  import opened Boards

  /** The source's int8_t, the type of a marker. */
  type i8 = x: int | -128 <= x < 128

  /** The conversion of a uint8_t depth into an int8_t marker: values from 128 on wrap to negative markers. */
  function ToInt8(v: u8): i8 {
    if v < 128 then v else v - 256
  }

  /** The bit `0x1 << 2*(3 - dir)` the search tests: the connected bit towards dir. */
  function StepBit(dir: Direction): (b: bv8)
    ensures b == ConnectedBit(dir)
  {
    0x1 << (2 * (3 - dir))
  }

  /** The boundary test of the search: a step towards dir would leave the grid. */
  predicate AtEdge(height: u8, width: u8, p: Coord, dir: Direction) {
    || (dir == 0 && p.row == 0) || (dir == 1 && p.col == 0)
    || (dir == 2 && p.row >= height - 1) || (dir == 3 && p.col >= width - 1)
  }

  /**
   * The neighbour the search computes: `row + (dir - 1)` for even dir, `col
   * + (dir - 2)` for odd dir. Whenever the boundary test lets the step
   * through it is the on-board cell moveCoordiantesInDirection reaches.
   */
  function Neighbour(height: u8, width: u8, p: Coord, dir: Direction): (n: Coord)
    requires AreCoordinatesOnBoard(height, width, p) && !AtEdge(height, width, p, dir)
    ensures AreCoordinatesOnBoard(height, width, n)
    ensures n == MoveInDirection(p, dir)
  {
    Coord(if dir % 2 == 0 then p.row + (dir - 1) else p.row,
          if dir % 2 == 1 then p.col + (dir - 2) else p.col)
  }

  /** The search follows the edge from p towards dir: the step stays on the grid and p's connected bit towards dir is set. */
  predicate CanStep(g: Grid, height: u8, width: u8, p: Coord, dir: Direction)
    requires WellFormed(g, height, width) && AreCoordinatesOnBoard(height, width, p)
  {
    !AtEdge(height, width, p, dir) && Cell(g, height, width, p) & StepBit(dir) != 0
  }

  ghost predicate Edge(g: Grid, height: u8, width: u8, a: Coord, b: Coord)
    requires WellFormed(g, height, width) && AreCoordinatesOnBoard(height, width, a)
  {
    exists dir: Direction :: CanStep(g, height, width, a, dir) && Neighbour(height, width, a, dir) == b
  }

  /** A sequence of on-board cells, each one an edge away from the one before. */
  ghost predicate IsWalk(g: Grid, height: u8, width: u8, walk: seq<Coord>) {
    && WellFormed(g, height, width)
    && |walk| >= 1
    && (forall i :: 0 <= i < |walk| ==> AreCoordinatesOnBoard(height, width, walk[i]))
    && forall i :: 0 <= i < |walk| - 1 ==> Edge(g, height, width, walk[i], walk[i + 1])
  }

  ghost predicate Reachable(g: Grid, height: u8, width: u8, a: Coord, b: Coord) {
    exists walk :: IsWalk(g, height, width, walk) && walk[0] == a && walk[|walk| - 1] == b
  }

  lemma ReachableFromItself(g: Grid, height: u8, width: u8, a: Coord)
    requires WellFormed(g, height, width) && AreCoordinatesOnBoard(height, width, a)
    ensures Reachable(g, height, width, a, a)
  {
    assert IsWalk(g, height, width, [a]);
  }

  lemma {:induction false} ReachableThroughNeighbour(g: Grid, height: u8, width: u8, a: Coord, dir: Direction, b: Coord)
    requires WellFormed(g, height, width) && AreCoordinatesOnBoard(height, width, a)
    requires CanStep(g, height, width, a, dir)
    requires Reachable(g, height, width, Neighbour(height, width, a, dir), b)
    ensures Reachable(g, height, width, a, b)
  {
    var walk :| IsWalk(g, height, width, walk) && walk[0] == Neighbour(height, width, a, dir) && walk[|walk| - 1] == b;
    var longer := [a] + walk;
    assert Edge(g, height, width, longer[0], longer[1]);
    assert forall i :: 1 <= i < |longer| - 1 ==> longer[i] == walk[i - 1] && longer[i + 1] == walk[i];
    assert IsWalk(g, height, width, longer);
  }

  /** FRAMEWORK_COORD_TO_INDEX: the row-major index `width * row + col` of a cell in `path`. */
  function Index(width: u8, p: Coord): int {
    width * p.row + p.col
  }

  lemma {:induction false} IndexInRange(height: u8, width: u8, p: Coord)
    requires AreCoordinatesOnBoard(height, width, p)
    ensures 0 <= Index(width, p) < width * height
  {
    assert width * p.row <= width * (height - 1) by {
      MultiplyMonotone(width, p.row, height - 1);
    }
  }

  lemma {:induction false} MultiplyMonotone(w: nat, a: nat, b: nat)
    requires a <= b
    ensures w * a <= w * b
  {
    if a < b {
      MultiplyMonotone(w, a, b - 1);
    }
  }

  lemma {:induction false} IndexInjective(height: u8, width: u8, p: Coord, q: Coord)
    requires AreCoordinatesOnBoard(height, width, p) && AreCoordinatesOnBoard(height, width, q)
    requires Index(width, p) == Index(width, q)
    ensures p == q
  {
    if p.row < q.row {
      MultiplyMonotone(width, p.row + 1, q.row);
      assert false;
    } else if q.row < p.row {
      MultiplyMonotone(width, q.row + 1, p.row);
      assert false;
    }
  }

  /** The indices of the cells not entered yet: markers 0 (unvisited) and -1 (dest). */
  ghost function Unentered(s: seq<i8>): set<int> {
    set i | 0 <= i < |s| && s[i] <= 0
  }

  /** The cell's marker is positive: the search has entered it. */
  ghost predicate Entered(s: seq<i8>, width: u8, p: Coord) {
    0 <= Index(width, p) < |s| && s[Index(width, p)] > 0
  }

  /** Every open step out of p leads to an entered cell. */
  ghost predicate Finished(g: Grid, height: u8, width: u8, s: seq<i8>, p: Coord)
    requires WellFormed(g, height, width) && AreCoordinatesOnBoard(height, width, p)
  {
    forall dir: Direction :: CanStep(g, height, width, p, dir) ==> Entered(s, width, Neighbour(height, width, p, dir))
  }

  /** Markers only go from 0 to a positive depth; dest's -1 and the depths already written stay. */
  ghost predicate MarkersGrew(before: seq<i8>, after: seq<i8>) {
    |after| == |before| && forall i :: 0 <= i < |before| ==> after[i] == before[i] || (before[i] == 0 && after[i] > 0)
  }

  /** The markers the search runs on: -1 on dest and nowhere else, no marker below -1. */
  ghost predicate DestMarked(s: seq<i8>, height: u8, width: u8, dest: Coord) {
    && |s| == width * height
    && AreCoordinatesOnBoard(height, width, dest)
    && 0 <= Index(width, dest) < |s|
    && s[Index(width, dest)] == -1
    && forall i :: 0 <= i < |s| && i != Index(width, dest) ==> s[i] >= 0
  }

  lemma {:induction false} SubsetCardinality(a: set<int>, b: set<int>)
    requires a <= b
    ensures |a| <= |b|
    ensures a < b ==> |a| < |b|
  {
    assert b == a + (b - a);
  }

  lemma {:induction false} UnenteredAtMostAll(s: seq<i8>)
    ensures |Unentered(s)| <= |s|
    decreases |s|
  {
    if |s| > 0 {
      var t := s[..|s| - 1];
      UnenteredAtMostAll(t);
      assert Unentered(s) <= Unentered(t) + {|s| - 1};
      SubsetCardinality(Unentered(s), Unentered(t) + {|s| - 1});
    }
  }

  /** Every cell entered after `before` (and entered in `now`) is finished in `now`. */
  ghost predicate NewCellsFinished(g: Grid, height: u8, width: u8, before: seq<i8>, now: seq<i8>)
    requires WellFormed(g, height, width)
  {
    forall p: Coord :: AreCoordinatesOnBoard(height, width, p) && !Entered(before, width, p) && Entered(now, width, p) ==>
      Finished(g, height, width, now, p)
  }

  /** The directions below `dir` that the search can step to from p lead to entered cells. */
  ghost predicate Tried(g: Grid, height: u8, width: u8, s: seq<i8>, p: Coord, dir: nat)
    requires WellFormed(g, height, width) && AreCoordinatesOnBoard(height, width, p)
  {
    forall d: Direction :: d < dir && CanStep(g, height, width, p, d) ==> Entered(s, width, Neighbour(height, width, p, d))
  }

  lemma {:induction false} TriedExtend(g: Grid, height: u8, width: u8, s: seq<i8>, p: Coord, dir: Direction)
    requires WellFormed(g, height, width) && AreCoordinatesOnBoard(height, width, p)
    requires Tried(g, height, width, s, p, dir)
    requires CanStep(g, height, width, p, dir) ==> Entered(s, width, Neighbour(height, width, p, dir))
    ensures Tried(g, height, width, s, p, dir + 1)
  {
    forall d: Direction | d < dir + 1 && CanStep(g, height, width, p, d)
      ensures Entered(s, width, Neighbour(height, width, p, d))
    {
      if d < dir {
        assert Tried(g, height, width, s, p, dir);
      }
    }
  }

  lemma GrewTransitive(a: seq<i8>, b: seq<i8>, c: seq<i8>)
    requires MarkersGrew(a, b) && MarkersGrew(b, c)
    ensures MarkersGrew(a, c)
  {
  }

  lemma UnenteredShrinks(a: seq<i8>, b: seq<i8>)
    requires MarkersGrew(a, b)
    ensures Unentered(b) <= Unentered(a)
  {
  }

  lemma DestMarkedStays(a: seq<i8>, b: seq<i8>, height: u8, width: u8, dest: Coord)
    requires DestMarked(a, height, width, dest) && MarkersGrew(a, b)
    ensures DestMarked(b, height, width, dest)
  {
  }

  lemma {:induction false} FinishedStays(g: Grid, height: u8, width: u8, a: seq<i8>, b: seq<i8>, p: Coord)
    requires WellFormed(g, height, width) && AreCoordinatesOnBoard(height, width, p)
    requires MarkersGrew(a, b) && Finished(g, height, width, a, p)
    ensures Finished(g, height, width, b, p)
  {
    forall dir: Direction | CanStep(g, height, width, p, dir)
      ensures Entered(b, width, Neighbour(height, width, p, dir))
    {
      assert Entered(a, width, Neighbour(height, width, p, dir));
    }
  }

  lemma {:induction false} TriedStays(g: Grid, height: u8, width: u8, a: seq<i8>, b: seq<i8>, p: Coord, dir: nat)
    requires WellFormed(g, height, width) && AreCoordinatesOnBoard(height, width, p)
    requires MarkersGrew(a, b) && Tried(g, height, width, a, p, dir)
    ensures Tried(g, height, width, b, p, dir)
  {
    forall d: Direction | d < dir && CanStep(g, height, width, p, d)
      ensures Entered(b, width, Neighbour(height, width, p, d))
    {
      assert Entered(a, width, Neighbour(height, width, p, d));
    }
  }

  /** The cells finished before a nested search returned stay finished, and the ones it entered are finished too. */
  lemma {:induction false} NewCellsFinishedChain(g: Grid, height: u8, width: u8, a: seq<i8>, b: seq<i8>, c: seq<i8>)
    requires WellFormed(g, height, width)
    requires MarkersGrew(a, b) && MarkersGrew(b, c)
    requires NewCellsFinished(g, height, width, a, b) && NewCellsFinished(g, height, width, b, c)
    ensures NewCellsFinished(g, height, width, a, c)
  {
    forall p: Coord | AreCoordinatesOnBoard(height, width, p) && !Entered(a, width, p) && Entered(c, width, p)
      ensures Finished(g, height, width, c, p)
    {
      if Entered(b, width, p) {
        FinishedStays(g, height, width, b, c, p);
      }
    }
  }

  /** Entering coord and finishing it adds coord to the finished cells. */
  lemma {:induction false} EnteringCoordFinishes(g: Grid, height: u8, width: u8, s0: seq<i8>, s1: seq<i8>, s: seq<i8>,
                                                 coord: Coord)
    requires WellFormed(g, height, width) && AreCoordinatesOnBoard(height, width, coord)
    requires 0 <= Index(width, coord) < |s0| == |s1| && s1 == s0[Index(width, coord) := s1[Index(width, coord)]]
    requires NewCellsFinished(g, height, width, s1, s) && Finished(g, height, width, s, coord)
    ensures NewCellsFinished(g, height, width, s0, s)
  {
    forall p: Coord | AreCoordinatesOnBoard(height, width, p) && !Entered(s0, width, p) && Entered(s, width, p)
      ensures Finished(g, height, width, s, p)
    {
      if p != coord {
        if Index(width, p) == Index(width, coord) {
          IndexInjective(height, width, p, coord);
        }
        assert !Entered(s1, width, p);
      }
    }
  }

  /** Two distinct cells not entered yet leave a depth of at most n - 1 when `val + |unentered| <= n + 1`. */
  lemma {:induction false} DepthFits(s: seq<i8>, i: int, j: int, val: int, n: int)
    requires 0 <= i < |s| && 0 <= j < |s| && i != j && s[i] <= 0 && s[j] <= 0
    requires val + |Unentered(s)| <= n + 1
    ensures val <= n - 1
  {
    assert i in Unentered(s) && j in Unentered(s);
    SubsetCardinality({i, j}, Unentered(s));
    assert |{i, j}| == 2;
  }

  /** Writing a positive depth over an unvisited marker enters that one cell. */
  lemma {:induction false} MarkShrinks(s: seq<i8>, i: int, v: i8)
    requires 0 <= i < |s| && s[i] == 0 && v > 0
    ensures MarkersGrew(s, s[i := v])
    ensures |Unentered(s[i := v])| < |Unentered(s)|
  {
    assert Unentered(s[i := v]) == Unentered(s) - {i};
    SubsetCardinality(Unentered(s[i := v]), Unentered(s));
  }

  /**
   * arePipesConnectedM: enters `coord` (returns true at once if it is the
   * dest), marks it with the depth `val`, and tries the four directions in
   * order, descending into every neighbour whose marker is not positive.
   *
   * True means dest is reachable from `coord`. False means every cell this
   * call entered (coord among them) has all of its open steps leading to
   * entered cells. Markers only ever go from 0 to a positive depth, and the
   * depth bound `val + |unentered| <= width * height + 1` keeps every depth
   * below 128, so no marker wraps.
   */
  method ArePipesConnectedM(board: array2<bv8>, path: array<i8>, width: u8, height: u8, coord: Coord, val: u8,
                            ghost dest: Coord)
      returns (connected: bool)
    requires board.Length0 == height && board.Length1 == width && width * height <= 127
    requires AreCoordinatesOnBoard(height, width, coord)
    requires DestMarked(path[..], height, width, dest)
    requires !Entered(path[..], width, coord)
    requires 1 <= val && val + |Unentered(path[..])| <= width * height + 1
    modifies path
    ensures MarkersGrew(old(path[..]), path[..])
    ensures connected ==> Reachable(GridOf(board), height, width, coord, dest)
    ensures !connected ==> Entered(path[..], width, coord)
    ensures !connected ==> NewCellsFinished(GridOf(board), height, width, old(path[..]), path[..])
    decreases |Unentered(path[..])|, 1
  {
    ghost var g := GridOf(board);
    ghost var s0 := path[..];
    IndexInRange(height, width, coord);
    if path[Index(width, coord)] == -1 {
      if coord != dest {
        IndexInjective(height, width, coord, dest);
      }
      ReachableFromItself(g, height, width, coord);
      return true;
    }
    assert coord != dest;
    IndexInRange(height, width, dest);
    if Index(width, coord) == Index(width, dest) {
      IndexInjective(height, width, coord, dest);
    }
    DepthFits(s0, Index(width, coord), Index(width, dest), val, width * height);
    path[Index(width, coord)] := ToInt8(val);
    ghost var s1 := path[..];
    MarkShrinks(s0, Index(width, coord), ToInt8(val));

    var dir: nat := 0;
    while dir < 4
      invariant dir <= 4
      invariant MarkersGrew(s1, path[..])
      invariant DestMarked(path[..], height, width, dest)
      invariant |Unentered(path[..])| < |Unentered(s0)|
      invariant val + 1 + |Unentered(path[..])| <= width * height + 1
      invariant Entered(path[..], width, coord)
      invariant Tried(g, height, width, path[..], coord, dir)
      invariant NewCellsFinished(g, height, width, s1, path[..])
    {
      connected := TryDirection(board, path, width, height, coord, dir, val, dest, s1, |Unentered(s0)|);
      if connected {
        GrewTransitive(s0, s1, path[..]);
        return;
      }
      dir := dir + 1;
    }
    EnteringCoordFinishes(g, height, width, s0, s1, path[..], coord);
    GrewTransitive(s0, s1, path[..]);
    return false;
  }

  /**
   * One turn of arePipesConnectedM's loop over the directions: when the
   * connected bit towards dir is set and the neighbour there has not been
   * entered, the search descends into it with depth val + 1. The ghost
   * `bound` is the unentered count on entry to the enclosing call; the
   * markers written so far (since `s1`, the state right after coord was
   * entered) keep the loop's invariant, now for dir + 1.
   */
  method TryDirection(board: array2<bv8>, path: array<i8>, width: u8, height: u8, coord: Coord, dir: Direction,
                      val: u8, ghost dest: Coord, ghost s1: seq<i8>, ghost bound: nat)
      returns (connected: bool)
    requires board.Length0 == height && board.Length1 == width && width * height <= 127
    requires AreCoordinatesOnBoard(height, width, coord)
    requires MarkersGrew(s1, path[..]) && DestMarked(path[..], height, width, dest)
    requires |Unentered(path[..])| < bound
    requires 1 <= val && val + 1 + |Unentered(path[..])| <= width * height + 1
    requires Entered(path[..], width, coord)
    requires Tried(GridOf(board), height, width, path[..], coord, dir)
    requires NewCellsFinished(GridOf(board), height, width, s1, path[..])
    modifies path
    ensures MarkersGrew(s1, path[..])
    ensures connected ==> Reachable(GridOf(board), height, width, coord, dest)
    ensures !connected ==> && DestMarked(path[..], height, width, dest)
                           && |Unentered(path[..])| < bound
                           && val + 1 + |Unentered(path[..])| <= width * height + 1
                           && Entered(path[..], width, coord)
                           && Tried(GridOf(board), height, width, path[..], coord, dir + 1)
                           && NewCellsFinished(GridOf(board), height, width, s1, path[..])
    decreases bound, 0
  {
    ghost var g := GridOf(board);
    var step := !AtEdge(height, width, coord, dir) && board[coord.row, coord.col] & StepBit(dir) != 0;
    assert board[coord.row, coord.col] == Cell(g, height, width, coord);
    if step {
      var next := Neighbour(height, width, coord, dir);
      IndexInRange(height, width, next);
      if path[Index(width, next)] <= 0 {
        ghost var s2 := path[..];
        connected := ArePipesConnectedM(board, path, width, height, next, val + 1, dest);
        if connected {
          ReachableThroughNeighbour(g, height, width, coord, dir, dest);
          GrewTransitive(s1, s2, path[..]);
          return;
        }
        AfterNestedSearch(g, height, width, s1, s2, path[..], coord, dir);
        DestMarkedStays(s2, path[..], height, width, dest);
      }
      assert Entered(path[..], width, next);
    }
    TriedExtend(g, height, width, path[..], coord, dir);
    connected := false;
  }

  /** What a nested search that did not reach dest leaves of the outer search's loop invariant. */
  lemma {:induction false} AfterNestedSearch(g: Grid, height: u8, width: u8, s1: seq<i8>, s2: seq<i8>, s3: seq<i8>, p: Coord, dir: nat)
    requires WellFormed(g, height, width) && AreCoordinatesOnBoard(height, width, p)
    requires MarkersGrew(s1, s2) && MarkersGrew(s2, s3)
    requires NewCellsFinished(g, height, width, s1, s2) && NewCellsFinished(g, height, width, s2, s3)
    requires Tried(g, height, width, s2, p, dir) && Entered(s2, width, p)
    ensures MarkersGrew(s1, s3) && NewCellsFinished(g, height, width, s1, s3)
    ensures |Unentered(s3)| <= |Unentered(s2)|
    ensures Tried(g, height, width, s3, p, dir) && Entered(s3, width, p)
  {
    GrewTransitive(s1, s2, s3);
    UnenteredShrinks(s2, s3);
    SubsetCardinality(Unentered(s3), Unentered(s2));
    TriedStays(g, height, width, s2, s3, p, dir);
    NewCellsFinishedChain(g, height, width, s1, s2, s3);
  }

  /** If start is entered and every entered cell is finished, every cell reachable from start is entered. */
  lemma {:induction false} FinishedCellsAreClosed(g: Grid, height: u8, width: u8, s: seq<i8>, walk: seq<Coord>)
    requires IsWalk(g, height, width, walk) && Entered(s, width, walk[0])
    requires forall p: Coord :: AreCoordinatesOnBoard(height, width, p) && Entered(s, width, p) ==>
               Finished(g, height, width, s, p)
    ensures Entered(s, width, walk[|walk| - 1])
    decreases |walk|
  {
    if |walk| > 1 {
      assert Edge(g, height, width, walk[0], walk[1]);
      var dir: Direction :| CanStep(g, height, width, walk[0], dir) && Neighbour(height, width, walk[0], dir) == walk[1];
      assert Finished(g, height, width, s, walk[0]);
      var tail := walk[1..];
      assert forall i :: 0 <= i < |tail| ==> tail[i] == walk[i + 1];
      assert IsWalk(g, height, width, tail);
      FinishedCellsAreClosed(g, height, width, s, tail);
    }
  }

  /**
   * arePipesConnected: a zeroed marker array with dest marked -1, then the
   * search from start at depth 1. On a board of at most 127 cells the answer
   * is exactly whether dest is reachable from start.
   */
  method ArePipesConnected(board: array2<bv8>, width: u8, height: u8, start: Coord, dest: Coord) returns (connected: bool)
    requires board.Length0 == height && board.Length1 == width && width * height <= 127
    requires AreCoordinatesOnBoard(height, width, start) && AreCoordinatesOnBoard(height, width, dest)
    ensures connected == Reachable(GridOf(board), height, width, start, dest)
  {
    ghost var g := GridOf(board);
    var path := new i8[width * height](_ => 0);
    IndexInRange(height, width, dest);
    IndexInRange(height, width, start);
    path[Index(width, dest)] := -1;
    UnenteredAtMostAll(path[..]);
    ghost var s0 := path[..];
    connected := ArePipesConnectedM(board, path, width, height, start, 1, dest);
    if !connected && Reachable(g, height, width, start, dest) {
      var walk :| IsWalk(g, height, width, walk) && walk[0] == start && walk[|walk| - 1] == dest;
      forall p: Coord | AreCoordinatesOnBoard(height, width, p) && Entered(path[..], width, p)
        ensures Finished(g, height, width, path[..], p)
      {
        assert !Entered(s0, width, p);
      }
      FinishedCellsAreClosed(g, height, width, path[..], walk);
      assert false;
    }
  }

  /**
   * On a board whose connected bits are consistent, the search's edges are
   * exactly the reciprocally open pairs of neighbouring cells.
   */
  lemma {:induction false} StepIsReciprocalOpenness(g: Grid, height: u8, width: u8, p: Coord, dir: Direction)
    requires Consistent(g, height, width) && AreCoordinatesOnBoard(height, width, p)
    ensures CanStep(g, height, width, p, dir) <==> ReciprocallyOpen(g, height, width, p, dir)
  {
    assert Connected(g, height, width, p, dir) == ReciprocallyOpen(g, height, width, p, dir);
    var n := MoveInDirection(p, dir);
    if AtEdge(height, width, p, dir) {
      assert !AreCoordinatesOnBoard(height, width, n);
    } else {
      assert n == Neighbour(height, width, p, dir);
    }
  }
}
