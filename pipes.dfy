/**
 * The pipe byte model of ESPipes: one byte per board cell.
 *
 * For each direction d (TOP = 0, LEFT = 1, BOTTOM = 2, RIGHT = 3) the byte
 * holds two bits: bit 7 - 2d says the pipe is open towards d, bit 6 - 2d
 * caches whether that opening is connected to the neighbour's opening.
 */
module Pipes {

  /** The four directions, numbered as the source's Direction enum. */
  type Direction = d: nat | d < 4

  const TOP: Direction := 0
  const LEFT: Direction := 1
  const BOTTOM: Direction := 2
  const RIGHT: Direction := 3

  /** The bit that says the pipe is open towards d: bits 7, 5, 3, 1 for TOP, LEFT, BOTTOM, RIGHT. */
  function OpenBit(d: Direction): bv8 {
    match d
    case 0 => 0x80
    case 1 => 0x20
    case 2 => 0x08
    case 3 => 0x02
  }

  /** The bit that caches whether the opening towards d is connected: the bit just below the open bit. */
  function ConnectedBit(d: Direction): bv8 {
    match d
    case 0 => 0x40
    case 1 => 0x10
    case 2 => 0x04
    case 3 => 0x01
  }

  /**
   * The masks are the ones the source computes: `0x80 >> 2d` in
   * isPipeOpenInDirection and `SWITCH >> 2d` (SWITCH = 0x40) in
   * setConnectedBitInDirection.
   */
  lemma MasksAreShifts(d: Direction)
    ensures OpenBit(d) == 0x80 >> (2 * d)
    ensures ConnectedBit(d) == 0x40 >> (2 * d)
    ensures ConnectedBit(d) == OpenBit(d) >> 1
  {
  }

  /** isPipeOpenInDirection: the bit `0x80 >> (2 * dir)` of the pipe. */
  predicate IsPipeOpenInDirection(pipe: bv8, d: Direction)
    ensures IsPipeOpenInDirection(pipe, d) <==> pipe & (0x80 >> (2 * d)) != 0
  {
    pipe & OpenBit(d) != 0
  }

  predicate IsConnectedInDirection(pipe: bv8, d: Direction) {
    pipe & ConnectedBit(d) != 0
  }

  /** The open half of a byte (`pipe & 0xAA`), the part the renderer looks at. */
  function OpenMask(pipe: bv8): (m: bv8)
    ensures forall d: Direction :: IsPipeOpenInDirection(m, d) == IsPipeOpenInDirection(pipe, d)
    ensures forall d: Direction :: !IsConnectedInDirection(m, d)
  {
    pipe & 0xAA
  }

  /** A byte is determined by its four open bits and its four connected bits. */
  lemma {:induction false} BitsDetermineByte(p: bv8, q: bv8)
    requires forall d: Direction :: IsPipeOpenInDirection(p, d) == IsPipeOpenInDirection(q, d)
    requires forall d: Direction :: IsConnectedInDirection(p, d) == IsConnectedInDirection(q, d)
    ensures p == q
  {
    assert IsPipeOpenInDirection(p, TOP) == IsPipeOpenInDirection(q, TOP);
    assert IsPipeOpenInDirection(p, LEFT) == IsPipeOpenInDirection(q, LEFT);
    assert IsPipeOpenInDirection(p, BOTTOM) == IsPipeOpenInDirection(q, BOTTOM);
    assert IsPipeOpenInDirection(p, RIGHT) == IsPipeOpenInDirection(q, RIGHT);
    assert IsConnectedInDirection(p, TOP) == IsConnectedInDirection(q, TOP);
    assert IsConnectedInDirection(p, LEFT) == IsConnectedInDirection(q, LEFT);
    assert IsConnectedInDirection(p, BOTTOM) == IsConnectedInDirection(q, BOTTOM);
    assert IsConnectedInDirection(p, RIGHT) == IsConnectedInDirection(q, RIGHT);
  }

  /** The direction a left rotation carries d to: TOP to LEFT, ..., RIGHT to TOP. */
  function Next(d: Direction): Direction {
    (d + 1) % 4
  }

  /**
   * Left rotation `((pipe & 0x03) << 6) | (pipe >> 2)`: every bit pair moves
   * one direction on, so the pipe open (connected) towards d is afterwards
   * open (connected) towards Next(d).
   */
  function RotateLeft(pipe: bv8): (r: bv8)
    ensures forall d: Direction :: IsPipeOpenInDirection(r, Next(d)) == IsPipeOpenInDirection(pipe, d)
    ensures forall d: Direction :: IsConnectedInDirection(r, Next(d)) == IsConnectedInDirection(pipe, d)
  {
    ((pipe & 0x03) << 6) | (pipe >> 2)
  }

  /**
   * Right rotation `((pipe & 0xC0) >> 6) | (pipe << 2)`, stored back into a
   * byte; the shift on `bv8` drops the bits above bit 7 exactly as the store
   * into a uint8_t does. The pair of direction Next(d) moves to d.
   */
  function RotateRight(pipe: bv8): (r: bv8)
    ensures forall d: Direction :: IsPipeOpenInDirection(r, d) == IsPipeOpenInDirection(pipe, Next(d))
    ensures forall d: Direction :: IsConnectedInDirection(r, d) == IsConnectedInDirection(pipe, Next(d))
  {
    ((pipe & 0xC0) >> 6) | (pipe << 2)
  }

  /** The byte rotatePipe stores: LEFT and RIGHT rotate, TOP and BOTTOM leave the byte as it is. */
  function Rotate(pipe: bv8, dir: Direction): (r: bv8)
    ensures dir == LEFT ==> RotateRight(r) == pipe
    ensures dir == RIGHT ==> RotateLeft(r) == pipe
    ensures dir != LEFT && dir != RIGHT ==> r == pipe
  {
    if dir == LEFT then RotateLeft(pipe)
    else if dir == RIGHT then RotateRight(pipe)
    else pipe
  }

  lemma LeftThenRight(pipe: bv8)
    ensures RotateRight(RotateLeft(pipe)) == pipe
  {
  }

  lemma RightThenLeft(pipe: bv8)
    ensures RotateLeft(RotateRight(pipe)) == pipe
  {
  }

  lemma FourLeftRotations(pipe: bv8)
    ensures RotateLeft(RotateLeft(RotateLeft(RotateLeft(pipe)))) == pipe
  {
  }

  lemma FourRightRotations(pipe: bv8)
    ensures RotateRight(RotateRight(RotateRight(RotateRight(pipe)))) == pipe
  {
  }

  /** The number of directions the pipe is open towards. */
  function OpenCount(pipe: bv8): (n: nat)
    ensures n <= 4
    ensures n == 0 <==> OpenMask(pipe) == 0
  {
    (if IsPipeOpenInDirection(pipe, TOP) then 1 else 0)
    + (if IsPipeOpenInDirection(pipe, LEFT) then 1 else 0)
    + (if IsPipeOpenInDirection(pipe, BOTTOM) then 1 else 0)
    + (if IsPipeOpenInDirection(pipe, RIGHT) then 1 else 0)
  }

  /** Rotation only reassigns the openings to other directions, it keeps how many there are. */
  lemma {:induction false} RotationKeepsOpenCount(pipe: bv8, dir: Direction)
    ensures OpenCount(Rotate(pipe, dir)) == OpenCount(pipe)
  {
    var r := Rotate(pipe, dir);
    if dir == LEFT {
      assert IsPipeOpenInDirection(r, Next(TOP)) == IsPipeOpenInDirection(pipe, TOP);
      assert IsPipeOpenInDirection(r, Next(LEFT)) == IsPipeOpenInDirection(pipe, LEFT);
      assert IsPipeOpenInDirection(r, Next(BOTTOM)) == IsPipeOpenInDirection(pipe, BOTTOM);
      assert IsPipeOpenInDirection(r, Next(RIGHT)) == IsPipeOpenInDirection(pipe, RIGHT);
    } else if dir == RIGHT {
      assert IsPipeOpenInDirection(r, TOP) == IsPipeOpenInDirection(pipe, Next(TOP));
      assert IsPipeOpenInDirection(r, LEFT) == IsPipeOpenInDirection(pipe, Next(LEFT));
      assert IsPipeOpenInDirection(r, BOTTOM) == IsPipeOpenInDirection(pipe, Next(BOTTOM));
      assert IsPipeOpenInDirection(r, RIGHT) == IsPipeOpenInDirection(pipe, Next(RIGHT));
    }
  }

  /**
   * The byte setConnectedBitInDirection stores: the connected bit of d set or
   * cleared, every other bit (all open bits among them) kept.
   */
  function WithConnected(pipe: bv8, d: Direction, connected: bool): (r: bv8)
    ensures IsConnectedInDirection(r, d) == connected
    ensures forall e: Direction :: IsPipeOpenInDirection(r, e) == IsPipeOpenInDirection(pipe, e)
    ensures forall e: Direction :: e != d ==> IsConnectedInDirection(r, e) == IsConnectedInDirection(pipe, e)
  {
    if connected then pipe | ConnectedBit(d) else pipe & !ConnectedBit(d)
  }

  /** The opposite direction: TOP and BOTTOM, LEFT and RIGHT. */
  function Opposite(d: Direction): Direction {
    (d + 2) % 4
  }

  lemma OppositeIsInvolution(d: Direction)
    ensures Opposite(Opposite(d)) == d
    ensures Opposite(d) != d
  {
  }

  /**
   * getOppositeDirection: steps the direction back twice, wrapping from TOP
   * to RIGHT.
   */
  method GetOppositeDirection(dir: Direction) returns (opposite: Direction)
    ensures opposite == Opposite(dir)
  {
    var d: int := dir;
    var i := 2;
    while i > 0
      invariant 0 <= i <= 2
      invariant 0 <= d < 4
      invariant d == (dir - (2 - i)) % 4
    {
      d := d - 1;
      if d < TOP {
        d := RIGHT;
      }
      i := i - 1;
    }
    opposite := d;
  }
}
