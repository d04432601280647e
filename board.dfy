/**
 * The game board of ESPipes: a height x width grid of pipe bytes plus the
 * start and end cells, rotation of a cell and the local refresh of the
 * connected bits around it.
 *
 * The specification is stated on grid VALUES (`seq<seq<bv8>>`, row-major);
 * the class Board holds the two-dimensional array the source updates in
 * place and ties every method to those values through `Contents()`.
 */
module Boards {
  import opened Pipes

  /** The source's uint8_t, for coordinates and dimensions. */
  type u8 = x: int | 0 <= x < 256

  /** A (row, column) pair, 0-indexed. */
  datatype Coord = Coord(row: u8, col: u8)

  /**
   * moveCoordiantesInDirection: one step towards d; each coordinate is a
   * uint8_t, so row 0 moving TOP becomes row 255.
   */
  function MoveInDirection(p: Coord, d: Direction): (r: Coord)
    ensures (d == TOP || d == BOTTOM) ==> r.col == p.col && r.row != p.row
    ensures (d == LEFT || d == RIGHT) ==> r.row == p.row && r.col != p.col
  {
    if d == TOP then Coord((p.row - 1) % 256, p.col)
    else if d == LEFT then Coord(p.row, (p.col - 1) % 256)
    else if d == BOTTOM then Coord((p.row + 1) % 256, p.col)
    else Coord(p.row, (p.col + 1) % 256)
  }

  /** Stepping towards d and then towards the opposite direction comes back. */
  lemma MoveThereAndBack(p: Coord, d: Direction)
    ensures MoveInDirection(MoveInDirection(p, d), Opposite(d)) == p
  {
  }

  /** A step always leaves the cell, and the four steps reach four different cells. */
  lemma MoveLeavesCell(p: Coord, d: Direction, e: Direction)
    ensures MoveInDirection(p, d) != p
    ensures d != e ==> MoveInDirection(p, d) != MoveInDirection(p, e)
  {
  }

  /**
   * areCoordinatesOnBoard: `!(row > height - 1 || col > width - 1 || row < 0
   * || col < 0)`, computed in int as the C promotion does.
   */
  predicate AreCoordinatesOnBoard(height: u8, width: u8, p: Coord) {
    !(p.row > height - 1 || p.col > width - 1 || p.row < 0 || p.col < 0)
  }

  lemma OnBoardIff(height: u8, width: u8, p: Coord)
    ensures AreCoordinatesOnBoard(height, width, p) <==> p.row < height && p.col < width
  {
  }

  /** A step off an edge wraps the uint8_t to 255, which no board of at most 255 rows or columns contains. */
  lemma {:induction false} WrappedStepIsOffBoard(height: u8, width: u8, p: Coord, d: Direction)
    requires AreCoordinatesOnBoard(height, width, p)
    requires (d == TOP && p.row == 0) || (d == LEFT && p.col == 0)
    ensures !AreCoordinatesOnBoard(height, width, MoveInDirection(p, d))
  {
    var n := MoveInDirection(p, d);
    assert n.row == 255 || n.col == 255;
  }

  /** A grid value: `height` rows of `width` bytes each. */
  type Grid = seq<seq<bv8>>

  ghost predicate WellFormed(g: Grid, height: u8, width: u8) {
    |g| == height && forall r :: 0 <= r < |g| ==> |g[r]| == width
  }

  function Cell(g: Grid, height: u8, width: u8, p: Coord): bv8
    requires WellFormed(g, height, width) && AreCoordinatesOnBoard(height, width, p)
  {
    g[p.row][p.col]
  }

  predicate Open(g: Grid, height: u8, width: u8, p: Coord, d: Direction)
    requires WellFormed(g, height, width) && AreCoordinatesOnBoard(height, width, p)
  {
    IsPipeOpenInDirection(Cell(g, height, width, p), d)
  }

  predicate Connected(g: Grid, height: u8, width: u8, p: Coord, d: Direction)
    requires WellFormed(g, height, width) && AreCoordinatesOnBoard(height, width, p)
  {
    IsConnectedInDirection(Cell(g, height, width, p), d)
  }

  /** What checkConnection answers: the neighbour towards d is on the board and open back towards p. */
  predicate NeighbourOpensBack(g: Grid, height: u8, width: u8, p: Coord, d: Direction)
    requires WellFormed(g, height, width)
  {
    var n := MoveInDirection(p, d);
    AreCoordinatesOnBoard(height, width, n) && Open(g, height, width, n, Opposite(d))
  }

  /** What the connected bit of p towards d must say: both openings face each other. */
  predicate ReciprocallyOpen(g: Grid, height: u8, width: u8, p: Coord, d: Direction)
    requires WellFormed(g, height, width) && AreCoordinatesOnBoard(height, width, p)
  {
    Open(g, height, width, p, d) && NeighbourOpensBack(g, height, width, p, d)
  }

  /** Two grids with the same shape and the same open bits everywhere. */
  ghost predicate SameOpenBits(g: Grid, g': Grid, height: u8, width: u8) {
    && WellFormed(g, height, width) && WellFormed(g', height, width)
    && forall p: Coord, d: Direction :: AreCoordinatesOnBoard(height, width, p) ==>
         Open(g', height, width, p, d) == Open(g, height, width, p, d)
  }

  /** Reciprocal openness depends on nothing but open bits. */
  lemma {:induction false} ReciprocalDependsOnOpenBits(g: Grid, g': Grid, height: u8, width: u8, p: Coord, d: Direction)
    requires SameOpenBits(g, g', height, width) && AreCoordinatesOnBoard(height, width, p)
    ensures ReciprocallyOpen(g', height, width, p, d) == ReciprocallyOpen(g, height, width, p, d)
  {
    assert Open(g', height, width, p, d) == Open(g, height, width, p, d);
    var n := MoveInDirection(p, d);
    if AreCoordinatesOnBoard(height, width, n) {
      assert Open(g', height, width, n, Opposite(d)) == Open(g, height, width, n, Opposite(d));
    }
  }

  /**
   * The board-wide invariant: every connected bit equals reciprocal
   * openness, so in particular a bit facing off the board is 0.
   */
  ghost predicate Consistent(g: Grid, height: u8, width: u8) {
    && WellFormed(g, height, width)
    && forall p: Coord, d: Direction :: AreCoordinatesOnBoard(height, width, p) ==>
         Connected(g, height, width, p, d) == ReciprocallyOpen(g, height, width, p, d)
  }

  /** The grid with the byte of cell p replaced by v. */
  function SetCell(g: Grid, height: u8, width: u8, p: Coord, v: bv8): (r: Grid)
    requires WellFormed(g, height, width) && AreCoordinatesOnBoard(height, width, p)
    ensures WellFormed(r, height, width)
    ensures Cell(r, height, width, p) == v
    ensures forall q: Coord :: AreCoordinatesOnBoard(height, width, q) && q != p ==>
              Cell(r, height, width, q) == Cell(g, height, width, q)
  {
    g[p.row := g[p.row][p.col := v]]
  }

  /**
   * The grid setConnectedBitInDirection(p, d) leaves: the one bit
   * (p, connected towards d) becomes reciprocal openness, no other bit of
   * the board changes.
   */
  function WithUpdatedBit(g: Grid, height: u8, width: u8, p: Coord, d: Direction): (r: Grid)
    requires WellFormed(g, height, width) && AreCoordinatesOnBoard(height, width, p)
    ensures SameOpenBits(g, r, height, width)
    ensures forall q: Coord, e: Direction :: AreCoordinatesOnBoard(height, width, q) ==>
              Connected(r, height, width, q, e) ==
                if q == p && e == d then ReciprocallyOpen(g, height, width, p, d)
                else Connected(g, height, width, q, e)
  {
    var pipe := Cell(g, height, width, p);
    SetCell(g, height, width, p, WithConnected(pipe, d, ReciprocallyOpen(g, height, width, p, d)))
  }

  /** One iteration of the loop in setConnectedBits: the bit of p towards d, then the neighbour's bit facing back. */
  function RefreshStep(g: Grid, height: u8, width: u8, p: Coord, d: Direction): Grid
    requires WellFormed(g, height, width) && AreCoordinatesOnBoard(height, width, p)
  {
    var g1 := WithUpdatedBit(g, height, width, p, d);
    var n := MoveInDirection(p, d);
    if AreCoordinatesOnBoard(height, width, n) then WithUpdatedBit(g1, height, width, n, Opposite(d)) else g1
  }

  /** The bits the first k iterations of setConnectedBits(p) rewrite: p's own bits towards d < k and the bits pointing at p from the neighbours in those directions. */
  predicate RefreshedBit(p: Coord, k: nat, q: Coord, e: Direction) {
    (q == p && e < k) || (MoveInDirection(q, e) == p && Opposite(e) < k)
  }

  /**
   * The grid after the first k iterations of setConnectedBits(p): no open
   * bit changes, every rewritten bit equals reciprocal openness, every other
   * bit is kept.
   */
  function RefreshUpTo(g: Grid, height: u8, width: u8, p: Coord, k: nat): (r: Grid)
    requires WellFormed(g, height, width) && AreCoordinatesOnBoard(height, width, p) && k <= 4
    ensures SameOpenBits(g, r, height, width)
    ensures forall q: Coord, e: Direction :: AreCoordinatesOnBoard(height, width, q) ==>
              Connected(r, height, width, q, e) ==
                if RefreshedBit(p, k, q, e) then ReciprocallyOpen(g, height, width, q, e)
                else Connected(g, height, width, q, e)
    decreases k
  {
    if k == 0 then g
    else
      var prev := RefreshUpTo(g, height, width, p, k - 1);
      var d: Direction := k - 1;
      var r := RefreshStep(prev, height, width, p, d);
      var n := MoveInDirection(p, d);
      var g1 := WithUpdatedBit(prev, height, width, p, d);
      assert SameOpenBits(g, r, height, width) by {
        if AreCoordinatesOnBoard(height, width, n) {
          assert r == WithUpdatedBit(g1, height, width, n, Opposite(d));
        }
      }
      assert forall q: Coord, e: Direction :: AreCoordinatesOnBoard(height, width, q) ==>
               Connected(r, height, width, q, e) ==
                 if RefreshedBit(p, k, q, e) then ReciprocallyOpen(g, height, width, q, e)
                 else Connected(g, height, width, q, e) by {
        forall q: Coord, e: Direction | AreCoordinatesOnBoard(height, width, q)
          ensures Connected(r, height, width, q, e) ==
                    if RefreshedBit(p, k, q, e) then ReciprocallyOpen(g, height, width, q, e)
                    else Connected(g, height, width, q, e)
        {
          ReciprocalDependsOnOpenBits(g, prev, height, width, q, e);
          ReciprocalDependsOnOpenBits(g, g1, height, width, q, e);
          if MoveInDirection(q, e) == p && Opposite(e) == d {
            MoveThereAndBack(q, e);
            OppositeIsInvolution(e);
          }
          if q == n && e == Opposite(d) {
            MoveThereAndBack(p, d);
          }
        }
      }
      r
  }

  /** The grid setConnectedBits(p) leaves. */
  function Refreshed(g: Grid, height: u8, width: u8, p: Coord): Grid
    requires WellFormed(g, height, width) && AreCoordinatesOnBoard(height, width, p)
  {
    RefreshUpTo(g, height, width, p, 4)
  }

  /** setConnectedBits(p) rewrites only the bit of a neighbour that faces p. */
  lemma {:induction false} NeighbourKeepsOtherBits(g: Grid, height: u8, width: u8, p: Coord, d: Direction, e: Direction)
    requires WellFormed(g, height, width) && AreCoordinatesOnBoard(height, width, p)
    requires AreCoordinatesOnBoard(height, width, MoveInDirection(p, d)) && e != Opposite(d)
    ensures Connected(Refreshed(g, height, width, p), height, width, MoveInDirection(p, d), e)
            == Connected(g, height, width, MoveInDirection(p, d), e)
  {
    var n := MoveInDirection(p, d);
    MoveLeavesCell(p, d, d);
    if MoveInDirection(n, e) == p {
      MoveThereAndBack(n, e);
      OppositeIsInvolution(e);
      MoveLeavesCell(p, d, Opposite(e));
      assert false;
    }
    assert !RefreshedBit(p, 4, n, e);
  }

  /**
   * What setConnectedBits(p) does: each connected bit of p and the bit of
   * each on-board neighbour that faces p become reciprocal openness; open
   * bits, the neighbours' other bits and every other cell are unchanged.
   */
  lemma {:induction false} RefreshedSpec(g: Grid, height: u8, width: u8, p: Coord)
    requires WellFormed(g, height, width) && AreCoordinatesOnBoard(height, width, p)
    ensures SameOpenBits(g, Refreshed(g, height, width, p), height, width)
    ensures forall d: Direction ::
              Connected(Refreshed(g, height, width, p), height, width, p, d) == ReciprocallyOpen(g, height, width, p, d)
    ensures forall d: Direction :: AreCoordinatesOnBoard(height, width, MoveInDirection(p, d)) ==>
              var n := MoveInDirection(p, d);
              && Connected(Refreshed(g, height, width, p), height, width, n, Opposite(d))
                 == ReciprocallyOpen(g, height, width, n, Opposite(d))
              && forall e: Direction :: e != Opposite(d) ==>
                   Connected(Refreshed(g, height, width, p), height, width, n, e) == Connected(g, height, width, n, e)
    ensures forall q: Coord ::
              (AreCoordinatesOnBoard(height, width, q) && q != p && forall d: Direction :: MoveInDirection(p, d) != q) ==>
              Cell(Refreshed(g, height, width, p), height, width, q) == Cell(g, height, width, q)
  {
    var r := Refreshed(g, height, width, p);
    forall d: Direction | AreCoordinatesOnBoard(height, width, MoveInDirection(p, d))
      ensures
        var n := MoveInDirection(p, d);
        && Connected(r, height, width, n, Opposite(d)) == ReciprocallyOpen(g, height, width, n, Opposite(d))
        && forall e: Direction :: e != Opposite(d) ==> Connected(r, height, width, n, e) == Connected(g, height, width, n, e)
    {
      var n := MoveInDirection(p, d);
      MoveThereAndBack(p, d);
      OppositeIsInvolution(d);
      forall e: Direction | e != Opposite(d)
        ensures Connected(r, height, width, n, e) == Connected(g, height, width, n, e)
      {
        NeighbourKeepsOtherBits(g, height, width, p, d, e);
      }
    }
    forall q: Coord | AreCoordinatesOnBoard(height, width, q) && q != p && (forall d: Direction :: MoveInDirection(p, d) != q)
      ensures Cell(r, height, width, q) == Cell(g, height, width, q)
    {
      forall e: Direction ensures !RefreshedBit(p, 4, q, e) {
        MoveThereAndBack(q, e);
      }
      BitsDetermineByte(Cell(r, height, width, q), Cell(g, height, width, q));
    }
  }

  /** If g1 differs from a consistent grid only in the byte of p, refreshing around p makes it consistent again. */
  lemma {:induction false} RefreshRepairs(g0: Grid, g1: Grid, height: u8, width: u8, p: Coord)
    requires Consistent(g0, height, width) && WellFormed(g1, height, width)
    requires AreCoordinatesOnBoard(height, width, p)
    requires forall q: Coord :: AreCoordinatesOnBoard(height, width, q) && q != p ==>
               Cell(g1, height, width, q) == Cell(g0, height, width, q)
    ensures Consistent(Refreshed(g1, height, width, p), height, width)
  {
    var r := Refreshed(g1, height, width, p);
    forall q: Coord, e: Direction | AreCoordinatesOnBoard(height, width, q)
      ensures Connected(r, height, width, q, e) == ReciprocallyOpen(r, height, width, q, e)
    {
      ReciprocalDependsOnOpenBits(g1, r, height, width, q, e);
      if !RefreshedBit(p, 4, q, e) {
        var n := MoveInDirection(q, e);
        if AreCoordinatesOnBoard(height, width, n) {
          assert Cell(g1, height, width, n) == Cell(g0, height, width, n);
        }
        assert Connected(g0, height, width, q, e) == ReciprocallyOpen(g0, height, width, q, e);
      }
    }
  }

  /** The grid rotatePipe leaves for an accepted rotation: the byte rotated, then the connected bits refreshed around it. */
  function Rotated(g: Grid, height: u8, width: u8, p: Coord, dir: Direction): (r: Grid)
    requires WellFormed(g, height, width) && AreCoordinatesOnBoard(height, width, p)
    ensures WellFormed(r, height, width)
  {
    var g1 := SetCell(g, height, width, p, Rotate(Cell(g, height, width, p), dir));
    Refreshed(g1, height, width, p)
  }

  /** Every accepted rotation keeps the connected bits consistent with the open bits. */
  lemma {:induction false} RotationPreservesConsistency(g: Grid, height: u8, width: u8, p: Coord, dir: Direction)
    requires Consistent(g, height, width) && AreCoordinatesOnBoard(height, width, p)
    ensures Consistent(Rotated(g, height, width, p, dir), height, width)
  {
    var g1 := SetCell(g, height, width, p, Rotate(Cell(g, height, width, p), dir));
    RefreshRepairs(g, g1, height, width, p);
  }

  /** Two grids of one shape that agree cell by cell are equal. */
  lemma {:induction false} GridExtensionality(g: Grid, g': Grid, height: u8, width: u8)
    requires WellFormed(g, height, width) && WellFormed(g', height, width)
    requires forall r, c :: 0 <= r < height && 0 <= c < width ==> g[r][c] == g'[r][c]
    ensures g == g'
  {
    forall r | 0 <= r < height ensures g[r] == g'[r] {
      assert forall c :: 0 <= c < width ==> g[r][c] == g'[r][c];
    }
  }

  /** The contents of a two-dimensional byte array as a grid value. */
  ghost function GridOf(a: array2<bv8>): (g: Grid)
    reads a
    requires a.Length0 < 256 && a.Length1 < 256
    ensures WellFormed(g, a.Length0, a.Length1)
    ensures forall r, c :: 0 <= r < a.Length0 && 0 <= c < a.Length1 ==> g[r][c] == a[r, c]
  {
    seq(a.Length0, r requires 0 <= r < a.Length0 reads a =>
      seq(a.Length1, c requires 0 <= c < a.Length1 reads a => a[r, c]))
  }

  /** The board the game plays on: the grid the source keeps as `uint8_t** map`, its size, start and end. */
  class Board {
    const height: u8
    const width: u8
    const start: Coord
    const end: Coord
    const cells: array2<bv8>

    /** The array's shape matches the dimensions, and start and end lie on the board. */
    ghost predicate Valid() {
      && cells.Length0 == height && cells.Length1 == width
      && AreCoordinatesOnBoard(height, width, start) && AreCoordinatesOnBoard(height, width, end)
    }

    /** The current contents of the array as a grid value. */
    ghost function Contents(): (g: Grid)
      reads cells
      requires Valid()
      ensures WellFormed(g, height, width)
      ensures forall r, c :: 0 <= r < height && 0 <= c < width ==> g[r][c] == cells[r, c]
    {
      GridOf(cells)
    }

    /** A board holding the already-decoded configuration: its size, start, end and the bytes of every cell. */
    constructor (height: u8, width: u8, start: Coord, end: Coord, bytes: Grid)
      requires WellFormed(bytes, height, width)
      requires AreCoordinatesOnBoard(height, width, start) && AreCoordinatesOnBoard(height, width, end)
      ensures Valid() && fresh(cells)
      ensures this.height == height && this.width == width && this.start == start && this.end == end
      ensures Contents() == bytes
    {
      this.height, this.width, this.start, this.end := height, width, start, end;
      cells := new bv8[height, width]((r, c) requires 0 <= r < height && 0 <= c < width => bytes[r][c]);
      new;
      GridExtensionality(Contents(), bytes, height, width);
    }

    /** checkConnection: whether the neighbour towards dir is on the board and open back. */
    method CheckConnection(p: Coord, dir: Direction) returns (connected: bool)
      requires Valid()
      ensures connected == NeighbourOpensBack(Contents(), height, width, p, dir)
    {
      var n := MoveInDirection(p, dir);
      if !AreCoordinatesOnBoard(height, width, n) {
        return false;
      }
      var opposite := GetOppositeDirection(dir);
      connected := IsPipeOpenInDirection(cells[n.row, n.col], opposite);
    }

    /** setConnectedBitInDirection: recompute the connected bit of p towards dir. */
    method SetConnectedBitInDirection(p: Coord, dir: Direction)
      requires Valid() && AreCoordinatesOnBoard(height, width, p)
      modifies cells
      ensures Contents() == WithUpdatedBit(old(Contents()), height, width, p, dir)
    {
      ghost var g := Contents();
      var pipe := cells[p.row, p.col];
      var connected: bool;
      if IsPipeOpenInDirection(cells[p.row, p.col], dir) {
        connected := CheckConnection(p, dir);
      } else {
        connected := false;
      }
      cells[p.row, p.col] := WithConnected(pipe, dir, connected);
      GridExtensionality(Contents(), WithUpdatedBit(g, height, width, p, dir), height, width);
    }

    /** setConnectedBits: for each direction, the bit of p and the bit of the neighbour facing back. */
    method SetConnectedBits(p: Coord)
      requires Valid() && AreCoordinatesOnBoard(height, width, p)
      modifies cells
      ensures Contents() == Refreshed(old(Contents()), height, width, p)
    {
      var dir := 0;
      while dir < 4
        invariant 0 <= dir <= 4
        invariant Contents() == RefreshUpTo(old(Contents()), height, width, p, dir)
      {
        SetConnectedBitInDirection(p, dir);
        var n := MoveInDirection(p, dir);
        if AreCoordinatesOnBoard(height, width, n) {
          var opposite := GetOppositeDirection(dir);
          SetConnectedBitInDirection(n, opposite);
        }
        dir := dir + 1;
      }
    }

    /**
     * rotatePipe: rejects a cell off the board and the start and end cells,
     * leaving the map as it was; otherwise rotates the byte, refreshes the
     * connected bits around it and accepts.
     */
    method RotatePipe(p: Coord, dir: Direction) returns (accepted: bool)
      requires Valid()
      modifies cells
      ensures accepted == (AreCoordinatesOnBoard(height, width, p) && p != start && p != end)
      ensures accepted ==> Contents() == Rotated(old(Contents()), height, width, p, dir)
      ensures !accepted ==> Contents() == old(Contents())
      ensures Consistent(old(Contents()), height, width) ==> Consistent(Contents(), height, width)
    {
      if !AreCoordinatesOnBoard(height, width, p) {
        return false;
      }
      if (p.row == start.row && p.col == start.col) || (p.row == end.row && p.col == end.col) {
        return false;
      }
      ghost var g := Contents();
      var newPipe := cells[p.row, p.col];
      if dir == LEFT {
        newPipe := RotateLeft(newPipe);
      } else if dir == RIGHT {
        newPipe := RotateRight(newPipe);
      }
      cells[p.row, p.col] := newPipe;
      GridExtensionality(Contents(), SetCell(g, height, width, p, Rotate(Cell(g, height, width, p), dir)), height, width);
      SetConnectedBits(p);
      if Consistent(g, height, width) {
        RotationPreservesConsistency(g, height, width, p, dir);
      }
      return true;
    }
  }
}
