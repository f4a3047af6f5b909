/** Where a pixel lives: the macro map from screen coordinates to memory cells. */
module Geometry {

  const COM_SIZE: int := 16

  /** GET_CHIP_FROM_X_Y, 0 based. */
  function ChipOf(x: nat, y: nat): nat {
    x / 16 + (if y > 7 then 2 else 0) + x / 32 * 2
  }

  /** GET_ADDR_FROM_X_Y. */
  function Addr(x: nat, y: nat): nat {
    x % 16 * 2 + y % 8 / 4 + ChipOf(x, y) * 32
  }

  /** The column that a cell shows. */
  function ColOf(a: nat): nat {
    a / 32 / 4 * 32 + a / 32 % 2 * 16 + a % 32 / 2
  }

  /** The row of cells, counted in fours of pixels, that a cell belongs to. */
  function RowOf(a: nat): nat {
    a / 32 / 2 % 2 * 2 + a % 2
  }

  ghost predicate OnScreen(units: nat, x: int, y: int) {
    0 <= x < 32 * units && 0 <= y < COM_SIZE
  }

  lemma ColParts(u: nat, h: nat, c: nat)
    requires h < 2 && c < 16
    ensures var x := u * 32 + h * 16 + c; x / 32 == u && x / 16 == 2 * u + h && x % 16 == c
  {
  }

  lemma RowParts(v: nat, r: nat, b: nat)
    requires v < 2 && r < 2 && b < 4
    ensures var y := v * 8 + r * 4 + b; (y > 7 <==> v == 1) && y % 8 / 4 == r && y / 4 == v * 2 + r && y % 4 == b
  {
  }

  /** The address of a pixel, in the parts of its coordinates. */
  lemma AddrFromParts(u: nat, v: nat, h: nat, c: nat, r: nat, b: nat)
    requires v < 2 && h < 2 && c < 16 && r < 2 && b < 4
    ensures Addr(u * 32 + h * 16 + c, v * 8 + r * 4 + b) == u * 128 + v * 64 + h * 32 + c * 2 + r
  {
    ColParts(u, h, c);
    RowParts(v, r, b);
  }

  lemma ChipNumber(u: nat, v: nat, h: nat)
    requires v < 2 && h < 2
    ensures var k := u * 4 + v * 2 + h; k / 4 == u && k / 2 % 2 == v && k % 2 == h
  {
    assert (u * 4 + v * 2 + h) / 2 == u * 2 + v;
  }

  lemma PairParts(c: nat, r: nat)
    requires r < 2
    ensures (c * 2 + r) / 2 == c && (c * 2 + r) % 2 == r
  {
  }

  lemma WordParts(k: nat, w: nat)
    requires w < 32
    ensures (k * 32 + w) / 32 == k && (k * 32 + w) % 32 == w
  {
  }

  lemma WordNumber(k: nat, c: nat, r: nat)
    requires c < 16 && r < 2
    ensures var a := k * 32 + (c * 2 + r); a / 32 == k && a % 32 / 2 == c && a % 2 == r
  {
    PairParts(c, r);
    PairParts(k * 16 + c, r);
    assert k * 32 + (c * 2 + r) == (k * 16 + c) * 2 + r;
    WordParts(k, c * 2 + r);
  }

  /** The pixels of a cell, in the same parts. */
  lemma CellFromParts(u: nat, v: nat, h: nat, c: nat, r: nat)
    requires v < 2 && h < 2 && c < 16 && r < 2
    ensures var a := u * 128 + v * 64 + h * 32 + c * 2 + r;
            ColOf(a) == u * 32 + h * 16 + c && RowOf(a) == v * 2 + r
  {
    ChipNumber(u, v, h);
    WordNumber(u * 4 + v * 2 + h, c, r);
  }

  lemma PixelHasParts(x: nat, y: nat) returns (u: nat, v: nat, h: nat, c: nat, r: nat, b: nat)
    requires y < 16
    ensures v < 2 && h < 2 && c < 16 && r < 2 && b < 4
    ensures x == u * 32 + h * 16 + c && y == v * 8 + r * 4 + b
  {
    u := x / 32;
    h := if x - u * 32 < 16 then 0 else 1;
    c := x - u * 32 - h * 16;
    v := if y < 8 then 0 else 1;
    r := if y - v * 8 < 4 then 0 else 1;
    b := y - v * 8 - r * 4;
  }

  lemma CellHasParts(a: nat) returns (u: nat, v: nat, h: nat, c: nat, r: nat)
    ensures v < 2 && h < 2 && c < 16 && r < 2
    ensures a == u * 128 + v * 64 + h * 32 + c * 2 + r
  {
    u := a / 128;
    v := if a - u * 128 < 64 then 0 else 1;
    h := if a - u * 128 - v * 64 < 32 then 0 else 1;
    var word := a - u * 128 - v * 64 - h * 32;
    c := word / 2;
    r := word - c * 2;
  }

  lemma ScreenParts(u: nat, v: nat, h: nat, c: nat, r: nat, b: nat)
    requires v < 2 && h < 2 && c < 16 && r < 2 && b < 4
    ensures var x := u * 32 + h * 16 + c; x / 32 == u && x / 16 % 2 == h && x % 16 == c
    ensures var y := v * 8 + r * 4 + b; y / 8 == v && y / 4 % 2 == r
  {
    ColParts(u, h, c);
    RowParts(v, r, b);
    PairParts(u, h);
    PairParts(v, r);
  }

  /** The chip of a pixel, of four to every 32 columns, and the word in that chip. */
  lemma ChipAndWord(x: nat, y: nat)
    requires y < 16
    ensures Addr(x, y) / 32 == x / 32 * 4 + y / 8 * 2 + x / 16 % 2
    ensures Addr(x, y) % 32 == x % 16 * 2 + y / 4 % 2
  {
    hide Addr;
    var u, v, h, c, r, b := PixelHasParts(x, y);
    AddrFromParts(u, v, h, c, r, b);
    ScreenParts(u, v, h, c, r, b);
    WordParts(u * 4 + v * 2 + h, c * 2 + r);
  }

  /** The address determines the pixel column and the row of cells. */
  lemma CellOfPixel(units: nat, x: int, y: int)
    requires OnScreen(units, x, y)
    ensures Addr(x, y) < 128 * units
    ensures ColOf(Addr(x, y)) == x && RowOf(Addr(x, y)) == y / 4
  {
    hide Addr, ColOf, RowOf;
    var u, v, h, c, r, b := PixelHasParts(x, y);
    AddrFromParts(u, v, h, c, r, b);
    CellFromParts(u, v, h, c, r);
  }

  /** Every cell of the buffer is some column's cell at some row of cells. */
  lemma PixelOfCell(units: nat, a: nat)
    requires a < 128 * units
    ensures OnScreen(units, ColOf(a), 4 * RowOf(a)) && RowOf(a) < 4
    ensures Addr(ColOf(a), 4 * RowOf(a)) == a
  {
    hide Addr, ColOf, RowOf;
    var u, v, h, c, r := CellHasParts(a);
    CellFromParts(u, v, h, c, r);
    AddrFromParts(u, v, h, c, r, 0);
  }

  /** The pixel row that bit `b` of cell `a` shows. */
  function RowOfBit(a: nat, b: nat): nat { 4 * RowOf(a) + b }

  /** The four pixels under one another in a cell share its address. */
  lemma SameCell(x: nat, row: nat, b: nat)
    requires row < 4 && b < 4
    ensures Addr(x, 4 * row + b) == Addr(x, 4 * row)
  {
  }

  /** The macro map is a bijection from the 32N by 16 screen onto 128N cells of four
      bits: every bit of every cell is exactly one pixel. */
  lemma MapIsBijection(units: nat)
    ensures forall x, y | OnScreen(units, x, y) :: Addr(x, y) < 128 * units
    ensures forall x, y, x', y' | OnScreen(units, x, y) && OnScreen(units, x', y') ::
              Addr(x, y) == Addr(x', y') && y % 4 == y' % 4 ==> x == x' && y == y'
    ensures forall a: nat, b: nat | a < 128 * units && b < 4 ::
              OnScreen(units, ColOf(a), RowOfBit(a, b)) &&
              Addr(ColOf(a), RowOfBit(a, b)) == a && RowOfBit(a, b) % 4 == b
  {
    forall x, y | OnScreen(units, x, y)
      ensures Addr(x, y) < 128 * units && ColOf(Addr(x, y)) == x && RowOf(Addr(x, y)) == y / 4
    {
      CellOfPixel(units, x, y);
    }
    forall a: nat, b: nat | a < 128 * units && b < 4
      ensures OnScreen(units, ColOf(a), RowOfBit(a, b)) && Addr(ColOf(a), RowOfBit(a, b)) == a && RowOfBit(a, b) % 4 == b
    {
      PixelOfCell(units, a);
      SameCell(ColOf(a), RowOf(a), b);
    }
  }
}
