/**
 * The pure helpers of printMap: the glyph of a pipe, chosen by its open
 * bits alone, and the digit arithmetic of the column and row headers.
 */
module Rendering {
  import opened Pipes
  import opened Boards

  /** The glyph printed for a byte that is not a pipe of its kind. */
  const InvalidGlyph := "▞"

  /** pipeToChar: the glyph of an ordinary cell, by its open bits `pipe & 0xAA`. */
  function PipeToChar(pipe: bv8): (r: string)
    ensures |r| == 1
  {
    var m := pipe & 0xAA;
    if m == 0xAA then "╬"
    else if m == 0x2A then "╦"
    else if m == 0x8A then "╠"
    else if m == 0xA2 then "╩"
    else if m == 0xA8 then "╣"
    else if m == 0x88 then "║"
    else if m == 0x22 then "═"
    else if m == 0xA0 then "╝"
    else if m == 0x28 then "╗"
    else if m == 0x0A then "╔"
    else if m == 0x82 then "╚"
    else if m == 0x00 then "█"
    else InvalidGlyph
  }

  /** specialPipeToChar: the glyph of the start or end cell, which has exactly one opening. */
  function SpecialPipeToChar(pipe: bv8): (r: string)
    ensures |r| == 1
  {
    var m := pipe & 0xAA;
    if m == 0x80 then "╨"
    else if m == 0x20 then "╡"
    else if m == 0x08 then "╥"
    else if m == 0x02 then "╞"
    else InvalidGlyph
  }

  /** Two bytes with the same open bits have the same open half. */
  lemma {:induction false} OpenMaskOfOpenBits(p: bv8, q: bv8)
    requires forall d: Direction :: IsPipeOpenInDirection(p, d) == IsPipeOpenInDirection(q, d)
    ensures OpenMask(p) == OpenMask(q)
  {
    BitsDetermineByte(OpenMask(p), OpenMask(q));
  }

  /** Setting or clearing a connected bit never changes a glyph. */
  lemma {:induction false} GlyphIgnoresConnectedBits(pipe: bv8, d: Direction, connected: bool)
    ensures PipeToChar(WithConnected(pipe, d, connected)) == PipeToChar(pipe)
    ensures SpecialPipeToChar(WithConnected(pipe, d, connected)) == SpecialPipeToChar(pipe)
  {
    OpenMaskOfOpenBits(WithConnected(pipe, d, connected), pipe);
  }

  /** The ordinary glyphs cover every pipe except those with exactly one opening. */
  lemma {:induction false} InvalidGlyphIffOneOpening(pipe: bv8)
    ensures PipeToChar(pipe) == InvalidGlyph <==> OpenCount(pipe) == 1
  {
    var m := pipe & 0xAA;
    assert m == 0x80 || m == 0x20 || m == 0x08 || m == 0x02 <==> OpenCount(pipe) == 1;
  }

  /** The special glyphs cover exactly the pipes with one opening. */
  lemma {:induction false} SpecialGlyphIffOneOpening(pipe: bv8)
    ensures SpecialPipeToChar(pipe) != InvalidGlyph <==> OpenCount(pipe) == 1
  {
    var m := pipe & 0xAA;
    assert m == 0x80 || m == 0x20 || m == 0x08 || m == 0x02 <==> OpenCount(pipe) == 1;
  }

  /** Powers of ten in unbounded arithmetic. */
  function Pow10(e: nat): (r: nat)
    ensures r >= 1
  {
    if e == 0 then 1 else 10 * Pow10(e - 1)
  }

  /**
   * getNumberOfDigits: 0 for 0, else one more than for `number / 10`. The
   * count never exceeds 3, so its uint8_t never wraps.
   */
  function GetNumberOfDigits(number: u8): (d: u8)
    ensures d <= 3
    ensures number < 100 ==> d <= 2
    ensures number < 10 ==> d <= 1
  {
    if number == 0 then 0 else 1 + GetNumberOfDigits(number / 10)
  }

  /** 0 has no digits; a positive number has d digits when 10^(d-1) <= n < 10^d. */
  lemma {:induction false} NumberOfDigitsBounds(n: u8)
    ensures n == 0 ==> GetNumberOfDigits(n) == 0
    ensures n > 0 ==> GetNumberOfDigits(n) >= 1
                      && Pow10(GetNumberOfDigits(n) - 1) <= n < Pow10(GetNumberOfDigits(n))
    ensures GetNumberOfDigits(n) <= 3
  {
    if n > 0 {
      NumberOfDigitsBounds(n / 10);
      var d := GetNumberOfDigits(n / 10);
      if n / 10 > 0 {
        assert Pow10(d) == 10 * Pow10(d - 1);
      }
    }
  }

  /** b^e in unbounded arithmetic. */
  function Pow(b: nat, e: nat): nat {
    if e == 0 then 1 else b * Pow(b, e - 1)
  }

  /** power: computed in uint8_t, so every product is kept modulo 256 and the result is b^e modulo 256. */
  function Power(base: u8, exponent: u8): (r: u8)
    ensures r == Pow(base, exponent) % 256
  {
    if exponent == 0 then 1
    else if exponent == 1 then base
    else
      MultiplyModulo(base, Pow(base, exponent - 1));
      (base * Power(base, exponent - 1)) % 256
  }

  lemma {:induction false} MultiplyModulo(b: nat, x: nat)
    ensures (b * (x % 256)) % 256 == (b * x) % 256
  {
    var q := x / 256;
    assert x == 256 * q + x % 256;
    assert b * x == 256 * (b * q) + b * (x % 256);
  }

  /**
   * With the exponents printMap uses the powers of ten are exact; from 10^3
   * on they wrap, and from 10^8 on they are 0.
   */
  lemma PowersOfTen()
    ensures forall e: u8 :: e <= 2 ==> Power(10, e) == Pow10(e)
    ensures Power(10, 3) == 232
    ensures Power(10, 8) == 0
  {
    assert Power(10, 2) == 100;
    assert Power(10, 3) == 232;
    assert Power(10, 7) == 128;
  }

  /**
   * The digit printMap writes for column j on header line i is `j /
   * power(10, d - i - 1) % 10` with d = getNumberOfDigits(width): the
   * exponent is at most 2, so the divisor is the exact power of ten.
   */
  lemma {:induction false} HeaderDivisorsAreExact(width: u8, i: nat)
    requires i < GetNumberOfDigits(width)
    ensures Power(10, GetNumberOfDigits(width) - i - 1) == Pow10(GetNumberOfDigits(width) - i - 1)
  {
    NumberOfDigitsBounds(width);
    PowersOfTen();
  }

  /** `++j` on printMap's uint8_t column counter: 255 wraps to 0. */
  function NextColumn(j: u8): (r: u8)
    ensures j < 255 ==> r == j + 1
    ensures j == 255 ==> r == 0
  {
    (j + 1) % 256
  }

  /**
   * The digits the column header loop `for (uint8_t j = 1; j <= width;
   * ++j)` prints from counter j on, within its first `fuel` iterations;
   * each is `j / power(10, exponent) % 10`.
   */
  function HeaderLoopAsWritten(width: u8, exponent: u8, j: u8, fuel: nat): seq<nat>
    requires exponent <= 2
    decreases fuel
  {
    PowersOfTen();
    if fuel == 0 || !(j <= width) then []
    else [j / Power(10, exponent) % 10] + HeaderLoopAsWritten(width, exponent, NextColumn(j), fuel - 1)
  }

  /** On a board narrower than 255 columns the loop prints one digit per column and stops. */
  lemma {:induction false} HeaderLoopStops(width: u8, exponent: u8, j: u8, fuel: nat)
    requires width < 255 && 1 <= j <= width + 1 && exponent <= 2
    ensures |HeaderLoopAsWritten(width, exponent, j, fuel)| == if fuel <= width + 1 - j then fuel else width + 1 - j
    decreases fuel
  {
    if fuel > 0 && j <= width {
      HeaderLoopStops(width, exponent, NextColumn(j), fuel - 1);
    }
  }

  /**
   * On a board 255 columns wide the guard `j <= 255` holds for every
   * counter value: however many iterations are allowed, the loop is still
   * printing, so printMap never returns.
   */
  lemma {:induction false} HeaderLoopNeverEndsOnWidestBoard(exponent: u8, j: u8, fuel: nat)
    requires exponent <= 2
    ensures |HeaderLoopAsWritten(255, exponent, j, fuel)| == fuel
    decreases fuel
  {
    if fuel > 0 {
      HeaderLoopNeverEndsOnWidestBoard(exponent, NextColumn(j), fuel - 1);
    }
  }

  /** The digit of column number `column` printed on header line `line` out of `lines`: the line-th digit from the left. */
  function HeaderDigit(column: nat, line: nat, lines: nat): nat
    requires line < lines
  {
    column / Pow10(lines - line - 1) % 10
  }

  /**
   * One line of the column header with a counter wide enough for every
   * width: one digit per column, `j / power(10, d - line - 1) % 10` for
   * column j, where d is the number of digits of the width.
   */
  method ColumnHeaderLine(width: u8, line: u8) returns (digits: seq<nat>)
    requires line < GetNumberOfDigits(width)
    ensures |digits| == width
    ensures forall k :: 0 <= k < width ==> digits[k] == HeaderDigit(k + 1, line, GetNumberOfDigits(width))
  {
    var numDigits := GetNumberOfDigits(width);
    HeaderDivisorsAreExact(width, line);
    digits := [];
    var j := 1;
    while j <= width
      invariant 1 <= j <= width + 1
      invariant |digits| == j - 1
      invariant forall k :: 0 <= k < j - 1 ==> digits[k] == HeaderDigit(k + 1, line, numDigits)
    {
      digits := digits + [j / Power(10, numDigits - line - 1) % 10];
      j := j + 1;
    }
  }

  /** Read from top to bottom, the header lines above column c spell c in decimal, with leading zeros. */
  lemma {:induction false} ColumnHeaderSpellsColumn(width: u8, c: nat)
    requires 1 <= c <= width
    ensures var d := GetNumberOfDigits(width);
            && (d == 1 ==> HeaderDigit(c, 0, 1) == c)
            && (d == 2 ==> 10 * HeaderDigit(c, 0, 2) + HeaderDigit(c, 1, 2) == c)
            && (d == 3 ==> 100 * HeaderDigit(c, 0, 3) + 10 * HeaderDigit(c, 1, 3) + HeaderDigit(c, 2, 3) == c)
  {
    NumberOfDigitsBounds(width);
    assert Pow10(0) == 1 && Pow10(1) == 10 && Pow10(2) == 100 && Pow10(3) == 1000;
  }
}
