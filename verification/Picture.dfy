/** What the drawing operations mean, on the values of the cells and on pixels. */
module Picture {
  import opened Geometry

  const MASK_NEEDS_REWRITING: bv8 := 0x10

  function BitMask(b: nat): bv8
    requires b < 4
  {
    if b == 0 then 1 else if b == 1 then 2 else if b == 2 then 4 else 8
  }

  /** Is bit b of the cell lit? */
  predicate On(cell: bv8, b: nat)
    requires b < 4
  {
    cell & BitMask(b) != 0
  }

  /** The n lowest bits of a cell. */
  function LowBits(n: nat): bv8
    requires n <= 4
  {
    if n == 0 then 0 else if n == 1 then 1 else if n == 2 then 3 else if n == 3 then 7 else 0xF
  }

  function Up(v: bv8, c: nat): bv8
    requires c < 4
  {
    if c == 0 then v else if c == 1 then v << 1 else if c == 2 then v << 2 else v << 3
  }

  function Down(v: bv8, c: nat): bv8
    requires 1 <= c <= 4
  {
    if c == 1 then v >> 1 else if c == 2 then v >> 2 else if c == 3 then v >> 3 else v >> 4
  }

  /** The n lowest bits without the c lowest. */
  function TopMask(n: nat, c: nat): bv8
    requires n <= 4 && c < 4
  {
    LowBits(n) & Up(0xF, c)
  }

  /** A nibble moved up by c rows, with the c rows that the nibble before left over. */
  function CarriedInk(ink: bv8, last: bv8, c: nat): bv8
    requires 1 <= c < 4
  {
    Up(ink, c) | Down(last, 4 - c)
  }

  /** The bits of `ink` under the mask, the other low bits of `cell`, and the rewrite flag. */
  function Merge(cell: bv8, mask: bv8, ink: bv8): bv8 {
    (cell & !mask & 0xF) | (ink & mask) | MASK_NEEDS_REWRITING
  }

  lemma MergeBit(cell: bv8, mask: bv8, ink: bv8, b: nat)
    requires b < 4
    ensures On(Merge(cell, mask, ink), b) == if On(mask, b) then On(ink, b) else On(cell, b)
  {
  }

  lemma LowBit(n: nat, b: nat)
    requires n <= 4 && b < 4
    ensures On(LowBits(n), b) <==> b < n
  {
  }

  lemma UpBit(v: bv8, c: nat, b: nat)
    requires c < 4 && b < 4
    ensures On(Up(v, c), b) <==> b >= c && On(v, b - c)
  {
  }

  predicate IsNibble(v: bv8) { v <= 0xF }

  lemma DownBit(v: bv8, c: nat, b: nat)
    requires 1 <= c < 4 && b < 4 && IsNibble(v)
    ensures On(Down(v, 4 - c), b) <==> b < c && On(v, b + 4 - c)
  {
  }

  lemma OrBit(v: bv8, w: bv8, b: nat)
    requires b < 4
    ensures On(v | w, b) <==> On(v, b) || On(w, b)
    ensures On(v & w, b) <==> On(v, b) && On(w, b)
  {
  }

  // ---------------------------------------------------------------- the copying engine, cell by cell

  /** Nibbles per image column. */
  function Stride(height: int): (k: int)
    ensures 4 * k - 4 < height <= 4 * k
  {
    (height + 3) / 4
  }

  /** How many low bits the bottom clipping keeps, as the engine computes it: all four
      when `roomy` rows or more are left, or else what remains. */
  function Kept(roomy: int, left: int): (n: nat)
    ensures n <= 4
  {
    if roomy >= 4 || left >= 4 then 4 else if left < 0 then 0 else left
  }

  /** The image, as it arrives at row of cells q when its top is at pixel row y. The
      step j of the engine's loop that serves this row is the one with
      j + y - y % 4 == 4 * q. */
  function ColumnCell(img: seq<bv8>, base: int, height: int, y: int, q: int, cell: bv8): bv8
    requires height > 0 ==> 0 <= base && base + Stride(height) <= |img|
  {
    var c := y % 4;
    var j := 4 * q - (y - c);
    if j < 0 || height <= 0 || j >= height + 4 then cell
    else if c == 0 then
      if j >= height then cell
      else Merge(cell, LowBits(Kept(height - (j + y), height - j)), img[base + j / 4])
    else if j == 0 then
      Merge(cell, TopMask(Kept(height - y, height), c), Up(img[base], c))
    else if j < height then
      Merge(cell, LowBits(Kept(height - (j + y), height + c - j)), CarriedInk(img[base + j / 4], img[base + j / 4 - 1], c))
    else
      Merge(cell, LowBits(c), Down(img[base + j / 4 - 1], 4 - c))
  }

  // ---------------------------------------------------------------- the copying engine, pixel by pixel

  /** Does an image of this height with its top at row y write its row r? */
  predicate Writes(height: int, y: int, r: int) {
    var c := y % 4;
    var b := (r + c) % 4;
    var j := r + c - b;
    if j < 0 || height <= 0 || j >= height + 4 then false
    else if c == 0 then j < height && (height - (j + y) >= 4 || r < height)
    else if j == 0 then r >= 0 && (height - y >= 4 || height >= 4 || r + c < height)
    else if j < height then height - (j + y) >= 4 || r < height
    else b < c
  }

  lemma WritesInside(height: int, y: int, r: int)
    requires Writes(height, y, r)
    ensures 0 <= r < 4 * Stride(height)
  {
  }

  lemma AlignedBits(cell: bv8, n: nat, ink: bv8, b: nat)
    requires n <= 4 && b < 4
    ensures On(Merge(cell, LowBits(n), ink), b) == if b < n then On(ink, b) else On(cell, b)
  {
  }

  lemma FirstBits(cell: bv8, n: nat, ink: bv8, c: nat, b: nat)
    requires n <= 4 && c < 4 && b < 4
    ensures On(Merge(cell, TopMask(n, c), Up(ink, c)), b) == if c <= b < n then On(ink, b - c) else On(cell, b)
  {
  }

  lemma MiddleBits(cell: bv8, n: nat, ink: bv8, last: bv8, c: nat, b: nat)
    requires n <= 4 && 1 <= c < 4 && b < 4 && IsNibble(last)
    ensures On(Merge(cell, LowBits(n), CarriedInk(ink, last, c)), b) ==
            if b >= n then On(cell, b) else if b >= c then On(ink, b - c) else On(last, b + 4 - c)
  {
    MergeBit(cell, LowBits(n), CarriedInk(ink, last, c), b);
    OrBit(Up(ink, c), Down(last, 4 - c), b);
    LowBit(n, b);
    UpBit(ink, c, b);
    DownBit(last, c, b);
  }

  lemma FlushBits(cell: bv8, last: bv8, c: nat, b: nat)
    requires 1 <= c < 4 && b < 4 && IsNibble(last)
    ensures On(Merge(cell, LowBits(c), Down(last, 4 - c)), b) == if b < c then On(last, b + 4 - c) else On(cell, b)
  {
  }

  /** Bit b at step 4 * s of the loop is image row 4 * s + b - c, which lies in nibble s
      of the column or in the nibble before. */
  lemma StepRow(y: int, s: int, b: nat)
    requires b < 4
    ensures var c := y % 4; var r := 4 * s + b - c;
            && (r + c) % 4 == b
            && (b >= c ==> r / 4 == s && r % 4 == b - c)
            && (b < c ==> r / 4 == s - 1 && r % 4 == b + 4 - c)
  {
  }

  /** Pixel by pixel, a cell that the engine has passed holds the image's bit on the
      written rows and its own bit elsewhere. */
  lemma ColumnPixel(img: seq<bv8>, base: int, height: int, y: int, q: int, cell: bv8, b: nat)
    requires height > 0 ==> 0 <= base && base + Stride(height) <= |img|
    requires forall k :: 0 <= k < |img| ==> IsNibble(img[k])
    requires b < 4
    ensures PixelRight(img, base, height, y, q, 4 * q + b - y, cell, b)
  {
    hide On, Merge, LowBits, CarriedInk, TopMask, IsNibble, Stride;
    if height > 0 {
      hide PixelRight, AtStep;
      var c, s := y % 4, q - y / 4;
      StepFacts(img, base, height, y, q, s, b);
      StepPixel(img, base, height, y, q, s, c, cell, b);
      assert 4 * s + b - c == 4 * q + b - y;
    }
  }

  lemma StepFacts(img: seq<bv8>, base: int, height: int, y: int, q: int, s: int, b: nat)
    requires height > 0 && 0 <= base && base + Stride(height) <= |img|
    requires forall k :: 0 <= k < |img| ==> IsNibble(img[k])
    requires b < 4 && s == q - y / 4
    ensures AtStep(img, base, height, y, q, s, y % 4, b)
  {
    hide IsNibble, Stride;
    StepRow(y, s, b);
    assert y == 4 * (y / 4) + y % 4;
  }

  /** The facts about bit b at step 4 * s that the four branches below share. */
  ghost predicate AtStep(img: seq<bv8>, base: int, height: int, y: int, q: int, s: int, c: nat, b: nat) {
    && height > 0 && 0 <= base && base + Stride(height) <= |img|
    && (forall k :: 0 <= k < |img| ==> IsNibble(img[k]))
    && b < 4 && c == y % 4 && 4 * q - (y - c) == 4 * s
    && var r := 4 * s + b - c;
    && (r + c) % 4 == b
    && (if b >= c then r / 4 == s && r % 4 == b - c else r / 4 == s - 1 && r % 4 == b + 4 - c)
  }

  ghost predicate PixelRight(img: seq<bv8>, base: int, height: int, y: int, q: int, r: int, cell: bv8, b: nat)
    requires height > 0 ==> 0 <= base && base + Stride(height) <= |img|
    requires b < 4
  {
    if Writes(height, y, r)
    then 0 <= r < 4 * Stride(height) && On(ColumnCell(img, base, height, y, q, cell), b) == On(img[base + r / 4], r % 4)
    else On(ColumnCell(img, base, height, y, q, cell), b) == On(cell, b)
  }

  lemma AlignedPixel(img: seq<bv8>, base: int, height: int, y: int, q: int, s: int, c: nat, cell: bv8, b: nat)
    requires AtStep(img, base, height, y, q, s, c, b) && c == 0 && 0 <= 4 * s < height
    ensures PixelRight(img, base, height, y, q, 4 * s + b - c, cell, b)
  {
    hide On, Merge, LowBits;
    AlignedBits(cell, Kept(height - (4 * s + y), height - 4 * s), img[base + s], b);
  }

  lemma FirstCell(img: seq<bv8>, base: int, height: int, y: int, q: int, cell: bv8)
    requires height > 0 && 0 <= base && base + Stride(height) <= |img| && y % 4 > 0 && 4 * q == y - y % 4
    ensures ColumnCell(img, base, height, y, q, cell) ==
            Merge(cell, TopMask(Kept(height - y, height), y % 4), Up(img[base], y % 4))
  {
    hide Merge, LowBits, Up, Down, Kept;
  }

  lemma FirstRows(height: int, y: int, b: nat)
    requires height > 0 && y % 4 > 0 && b < 4
    ensures Writes(height, y, b - y % 4) <==> y % 4 <= b < Kept(height - y, height)
  {
    assert (b - y % 4 + y % 4) % 4 == b;
  }

  lemma FirstPixel(img: seq<bv8>, base: int, height: int, y: int, q: int, s: int, c: nat, cell: bv8, b: nat)
    requires AtStep(img, base, height, y, q, s, c, b) && c > 0 && s == 0
    ensures PixelRight(img, base, height, y, q, 4 * s + b - c, cell, b)
  {
    hide PixelRight, Stride;
    TopPixel(img, base, height, y, q, cell, b);
    assert 4 * s + b - c == b - y % 4;
  }

  /** The same in terms of the top row alone. */
  lemma TopPixel(img: seq<bv8>, base: int, height: int, y: int, q: int, cell: bv8, b: nat)
    requires height > 0 && 0 <= base && base + Stride(height) <= |img|
    requires b < 4 && y % 4 > 0 && 4 * q == y - y % 4
    ensures PixelRight(img, base, height, y, q, b - y % 4, cell, b)
  {
    hide On, Merge, TopMask, Up, Kept, Writes, ColumnCell, Stride;
    var c := y % 4;
    FirstCell(img, base, height, y, q, cell);
    FirstRows(height, y, b);
    FirstBits(cell, Kept(height - y, height), img[base], c, b);
    if b >= c {
      WithinNibble(b - c);
    }
  }

  lemma WithinNibble(r: nat)
    requires r < 4
    ensures r / 4 == 0 && r % 4 == r
  {
  }

  lemma MiddlePixel(img: seq<bv8>, base: int, height: int, y: int, q: int, s: int, c: nat, cell: bv8, b: nat)
    requires AtStep(img, base, height, y, q, s, c, b) && c > 0 && 0 < 4 * s < height
    ensures PixelRight(img, base, height, y, q, 4 * s + b - c, cell, b)
  {
    hide On, Merge, LowBits, CarriedInk, IsNibble;
    assert y % 4 == c && (4 * s - 4) / 4 == s - 1 && 4 * s / 4 == s;
    MiddleBits(cell, Kept(height - (4 * s + y), height + c - 4 * s), img[base + s], img[base + s - 1], c, b);
  }

  lemma LastPixel(img: seq<bv8>, base: int, height: int, y: int, q: int, s: int, c: nat, cell: bv8, b: nat)
    requires AtStep(img, base, height, y, q, s, c, b) && c > 0 && 0 < 4 * s && height <= 4 * s < height + 4
    ensures PixelRight(img, base, height, y, q, 4 * s + b - c, cell, b)
  {
    hide On, Merge, LowBits, Down, IsNibble;
    FlushBits(cell, img[base + s - 1], c, b);
  }

  lemma StepPixel(img: seq<bv8>, base: int, height: int, y: int, q: int, s: int, c: nat, cell: bv8, b: nat)
    requires AtStep(img, base, height, y, q, s, c, b)
    ensures PixelRight(img, base, height, y, q, 4 * s + b - c, cell, b)
  {
    hide On, Merge, LowBits, Up, Down, IsNibble;
    if c == 0 && 0 <= 4 * s < height {
      AlignedPixel(img, base, height, y, q, s, c, cell, b);
    } else if c > 0 && s == 0 {
      FirstPixel(img, base, height, y, q, s, c, cell, b);
    } else if c > 0 && 0 < 4 * s < height {
      MiddlePixel(img, base, height, y, q, s, c, cell, b);
    } else if c > 0 && 0 < 4 * s && height <= 4 * s < height + 4 {
      LastPixel(img, base, height, y, q, s, c, cell, b);
    }
  }

  // ---------------------------------------------------------------- which rows are written

  /** An image of four rows or more, not above the screen: its rows, and the rows that
      the carried-over bits of the last nibble reach. */
  lemma RowsFromTop(height: int, y: int, r: int)
    requires height >= 4 && y >= 0
    ensures Writes(height, y, r) <==> 0 <= r < height || 4 * Stride(height) - y % 4 <= r < 4 * Stride(height)
  {
    StepOfRow(r + y % 4);
  }

  /** A height in whole nibbles: its rows and no other, wherever it is drawn. */
  lemma RowsOfWholeNibbles(height: int, y: int, r: int)
    requires height % 4 == 0 && y + r >= 0
    ensures Writes(height, y, r) <==> 0 <= r < height
  {
    StepOfRow(r + y % 4);
  }

  /** The same for every height and position, on the rows of the screen. */
  lemma RowsWritten(height: int, y: int, r: int)
    requires height > 0 && y + r >= 0
    ensures var c, rows := y % 4, (height + 3) / 4 * 4;
            Writes(height, y, r) <==>
              if y < 0 && y + rows <= height then 0 <= r < rows
              else if y >= 0 && height < 4 then 0 <= r < height - c || 4 - c <= r < 4
              else 0 <= r < height || rows - c <= r < rows
  {
    hide Writes;
    if y < 0 {
      RowsFromAbove(height, y, r);
    } else if height < 4 {
      RowsOfLowImage(height, y, r);
    } else {
      hide Stride;
      RowsFromTop(height, y, r);
      assert 4 * Stride(height) == (height + 3) / 4 * 4 by { StrideIs(height); }
    }
  }

  lemma StrideIs(height: int)
    ensures Stride(height) == (height + 3) / 4
  {
  }

  lemma RowsFromAbove(height: int, y: int, r: int)
    requires height > 0 && y < 0 && y + r >= 0
    ensures var c, rows := y % 4, (height + 3) / 4 * 4;
            Writes(height, y, r) <==> if y + rows <= height then 0 <= r < rows else 0 <= r < height || rows - c <= r < rows
  {
    StepOfRow(r + y % 4);
  }

  lemma RowsOfLowImage(height: int, y: int, r: int)
    requires 0 < height < 4 && y >= 0
    ensures Writes(height, y, r) <==> 0 <= r < height - y % 4 || 4 - y % 4 <= r < 4
  {
    StepOfRow(r + y % 4);
  }

  lemma StepOfRow(n: int)
    ensures n - n % 4 <= n < n - n % 4 + 4 && (n - n % 4) % 4 == 0
  {
  }

  /** The first row of an image in the wrong, where its height is not in whole nibbles and
      it is not at a nibble boundary: a row that is cut off, if the whole image is lower
      than a nibble, or else the first row of padding that gets written. */
  function FirstWrongRow(height: int, y: int): int {
    var c, rows := y % 4, 4 * Stride(height);
    if y >= 0 && height < 4 then (if height > c then height - c else 0)
    else if y <= height - rows || height >= rows - c then height
    else rows - c
  }

  /** The rows of the screen that drawImage writes are exactly the image's, if and only if
      the height is in whole nibbles, or the top is at a nibble boundary not above the
      screen, or the image is above the screen, or its first wrong row is below it. */
  lemma ExactRows(height: int, y: int)
    requires height > 0
    ensures (forall r | 0 <= y + r < COM_SIZE :: y + height >= 0 && Writes(height, y, r) <==> 0 <= r < height)
            <==> height % 4 == 0 || (y >= 0 && y % 4 == 0) || y + height < 0 || y + FirstWrongRow(height, y) >= COM_SIZE
  {
    hide Writes, FirstWrongRow, Stride;
    var regular := height % 4 == 0 || (y >= 0 && y % 4 == 0);
    var wrong := FirstWrongRow(height, y);
    forall r | 0 <= y + r < COM_SIZE && (regular || r < wrong) && y + height >= 0
      ensures Writes(height, y, r) <==> 0 <= r < height
    {
      if regular { RegularRows(height, y, r); } else { RowsBeforeWrong(height, y, r); }
    }
    if !regular && y + height >= 0 {
      WrongRow(height, y);
    }
  }

  lemma RegularRows(height: int, y: int, r: int)
    requires height > 0 && y + r >= 0
    requires height % 4 == 0 || (y >= 0 && y % 4 == 0)
    ensures Writes(height, y, r) <==> 0 <= r < height
  {
    if height % 4 == 0 {
      RowsOfWholeNibbles(height, y, r);
    } else {
      StepOfRow(r);
    }
  }

  lemma RowsBeforeWrong(height: int, y: int, r: int)
    requires height > 0 && height % 4 != 0 && !(y >= 0 && y % 4 == 0)
    requires y + r >= 0 && y + height >= 0 && r < FirstWrongRow(height, y)
    ensures Writes(height, y, r) <==> 0 <= r < height
  {
    StepOfRow(r + y % 4);
  }

  lemma WrongRow(height: int, y: int)
    requires height > 0 && height % 4 != 0 && !(y >= 0 && y % 4 == 0) && y + height >= 0
    ensures var r := FirstWrongRow(height, y); y + r >= 0 && !(Writes(height, y, r) <==> 0 <= r < height)
  {
    StepOfRow(FirstWrongRow(height, y) + y % 4);
  }

  // ---------------------------------------------------------------- whole buffers

  /** Where column i of the image starts. */
  function Base(height: int, offset: int, i: int): int {
    offset + i * Stride(height)
  }

  /** The image data hold every column. */
  predicate Fits(img: seq<bv8>, width: int, height: int, offset: int) {
    width > 0 && height > 0 ==> 0 <= offset && offset + width * ((height + 3) / 4) <= |img|
  }

  lemma ColumnFits(img: seq<bv8>, width: int, height: int, offset: int, i: int)
    requires Fits(img, width, height, offset) && 0 <= i < width
    ensures height > 0 ==> 0 <= Base(height, offset, i) && Base(height, offset, i) + Stride(height) <= |img|
  {
    if height > 0 {
      var k := Stride(height);
      Multiples(i, width, k);
    }
  }

  lemma Multiples(i: nat, n: nat, k: nat)
    requires i < n
    ensures 0 <= i * k && i * k + k <= n * k
  {
    assert (n - i - 1) * k >= 0;
    assert n * k == i * k + k + (n - i - 1) * k;
  }

  /** No column or row of the image can be on the screen. */
  predicate Outside(units: nat, width: int, height: int, x: int, y: int) {
    y + height < 0 || x + width < 0 || y > COM_SIZE || x > 32 * units
  }

  /** drawImage, as a function of the buffer. */
  function Blit(units: nat, cells: seq<bv8>, img: seq<bv8>, width: int, height: int, x: int, y: int, offset: int): (r: seq<bv8>)
    requires |cells| == 128 * units && Fits(img, width, height, offset)
    ensures |r| == |cells|
  {
    if Outside(units, width, height, x, y) then cells
    else seq(|cells|, a requires 0 <= a < |cells| => BlitCell(img, width, height, x, y, offset, a, cells[a]))
  }

  function BlitCell(img: seq<bv8>, width: int, height: int, x: int, y: int, offset: int, a: nat, cell: bv8): bv8
    requires Fits(img, width, height, offset)
  {
    var i := ColOf(a) - x;
    if 0 <= i < width then
      ColumnFits(img, width, height, offset, i);
      ColumnCell(img, Base(height, offset, i), height, y, RowOf(a), cell)
    else cell
  }

  /** Is pixel (px, py) of the screen taken from the image? */
  predicate Covers(width: int, height: int, x: int, y: int, px: int, py: int) {
    y + height >= 0 && x <= px < x + width && Writes(height, y, py - y)
  }

  /** The pixels of the screen that drawImage takes from the image, with c rows of offset to
      the nibbles of the screen. An image with at least as many rows above the screen as it
      has rows of padding shows all of its padding; one lower than a nibble shows the last c
      rows of its nibble, and of the rows before them only the first height - c; any other
      shows its rows and the last c of its padded height. */
  lemma CoveredPixels(width: int, height: int, x: int, y: int, px: int, py: int)
    requires 0 <= py < 16
    ensures var c, rows, r := y % 4, (height + 3) / 4 * 4, py - y;
            Covers(width, height, x, y, px, py) <==>
              && x <= px < x + width && height > 0 && y + height >= 0
              && (if y < 0 && y + rows <= height then 0 <= r < rows
                  else if y >= 0 && height < 4 then 0 <= r < height - c || 4 - c <= r < 4
                  else 0 <= r < height || rows - c <= r < rows)
  {
    hide Writes;
    if height > 0 {
      RowsWritten(height, y, py - y);
    } else if Writes(height, y, py - y) {
      WritesSome(height, y, py - y);
    }
  }

  /** A covered pixel is in some nibble of the image: columns one after the other, each in
      nibbles from the top down, the upper pixel of a nibble in its lowest bit. */
  lemma InkInBounds(img: seq<bv8>, width: int, height: int, x: int, y: int, offset: int, px: int, py: int)
    requires Fits(img, width, height, offset) && Covers(width, height, x, y, px, py)
    ensures y <= py && 0 <= offset + (px - x) * ((height + 3) / 4) + (py - y) / 4 < |img|
  {
    hide Writes, Fits;
    WritesInside(height, y, py - y);
    WritesSome(height, y, py - y);
    ColumnFits(img, width, height, offset, px - x);
  }

  lemma WritesSome(height: int, y: int, r: int)
    requires Writes(height, y, r)
    ensures height > 0
  {
  }

  /** drawImage pixel by pixel: covered pixels take the image's value, and every other
      pixel keeps its own. */
  lemma BlitPixel(units: nat, cells: seq<bv8>, img: seq<bv8>, width: int, height: int, x: int, y: int, offset: int, px: int, py: int)
    requires |cells| == 128 * units && Fits(img, width, height, offset)
    requires forall k :: 0 <= k < |img| ==> IsNibble(img[k])
    requires 0 <= px < 32 * units && 0 <= py < 16
    ensures Addr(px, py) < |cells|
    ensures var nibble := offset + (px - x) * ((height + 3) / 4) + (py - y) / 4;
            && (Covers(width, height, x, y, px, py) ==> y <= py && 0 <= nibble < |img|)
            && On(Blit(units, cells, img, width, height, x, y, offset)[Addr(px, py)], py % 4) ==
               if Covers(width, height, x, y, px, py) then On(img[nibble], (py - y) % 4) else On(cells[Addr(px, py)], py % 4)
  {
    hide On, Merge, LowBits, Up, Down, IsNibble, Addr, ColOf, RowOf, ColumnCell, Writes, Fits;
    CellOfPixel(units, px, py);
    assert 4 * (py / 4) + py % 4 - y == py - y;
    if Covers(width, height, x, y, px, py) {
      InkInBounds(img, width, height, x, y, offset, px, py);
      WritesInside(height, y, py - y);
    }
    if !Outside(units, width, height, x, y) && 0 <= px - x < width {
      ColumnFits(img, width, height, offset, px - x);
      ColumnPixel(img, Base(height, offset, px - x), height, y, py / 4, cells[Addr(px, py)], py % 4);
    }
  }

  // ---------------------------------------------------------------- single pixels

  function LitCell(cell: bv8, b: nat): bv8
    requires b < 4
  {
    cell | BitMask(b) | MASK_NEEDS_REWRITING
  }

  function UnlitCell(cell: bv8, b: nat): bv8
    requires b < 4
  {
    (cell & !BitMask(b)) | MASK_NEEDS_REWRITING
  }

  /** setPixel, as a function of the buffer. */
  function Plot(units: nat, cells: seq<bv8>, x: int, y: int, on: bool): (r: seq<bv8>)
    requires |cells| == 128 * units
    ensures |r| == |cells|
  {
    if 0 <= x < 32 * units && 0 <= y < COM_SIZE then
      CellOfPixel(units, x, y);
      var old_ := cells[Addr(x, y)];
      cells[Addr(x, y) := if on then LitCell(old_, y % 4) else UnlitCell(old_, y % 4)]
    else cells
  }

  function Dark(units: nat): (r: seq<bv8>)
    ensures |r| == 128 * units
  {
    seq(128 * units, _ => 0)
  }

  /** setPixel changes one pixel and no other. */
  lemma PlotPixel(units: nat, cells: seq<bv8>, x: int, y: int, on: bool, px: int, py: int)
    requires |cells| == 128 * units && OnScreen(units, px, py)
    ensures Addr(px, py) < |cells|
    ensures On(Plot(units, cells, x, y, on)[Addr(px, py)], py % 4) ==
            if (px, py) == (x, y) then on else On(cells[Addr(px, py)], py % 4)
  {
    hide On, LitCell, UnlitCell, Addr, ColOf, RowOf;
    CellOfPixel(units, px, py);
    if OnScreen(units, x, y) {
      CellOfPixel(units, x, y);
      PlotBit(cells[Addr(x, y)], y % 4, on, py % 4);
    }
  }

  lemma PlotBit(cell: bv8, b: nat, on: bool, b': nat)
    requires b < 4 && b' < 4
    ensures On(if on then LitCell(cell, b) else UnlitCell(cell, b), b') == if b == b' then on else On(cell, b')
  {
  }

  // ---------------------------------------------------------------- one column under way

  /** The bottom clipping mask as the engine writes it. */
  function BottomMask(roomy: int, shiftBottom: int): bv8
    requires shiftBottom <= 4
  {
    if roomy >= 4 || shiftBottom <= 0 then 0xF else Down(0xF, shiftBottom)
  }

  /** The step of the copying loop that serves row of cells q. */
  function Step(y: int, q: int): int { 4 * q - (y - y % 4) }

  /** The cells that the steps before j serve hold the image; all others are as before. */
  ghost predicate ColumnDone(before: seq<bv8>, now: seq<bv8>, img: seq<bv8>, base: int, height: int, locX: int, y: int, j: int) {
    && |now| == |before|
    && (height > 0 ==> 0 <= base && base + Stride(height) <= |img|)
    && forall a :: 0 <= a < |now| ==>
         now[a] == if ColOf(a) == locX && Step(y, RowOf(a)) < j then ColumnCell(img, base, height, y, RowOf(a), before[a]) else before[a]
  }

  lemma ColumnNotBegun(units: nat, before: seq<bv8>, img: seq<bv8>, base: int, height: int, locX: int, y: int)
    requires |before| == 128 * units
    requires height > 0 ==> 0 <= base && base + Stride(height) <= |img|
    ensures ColumnDone(before, before, img, base, height, locX, y, 0)
  {
  }

  /** A step whose row of cells is off the screen writes nothing. */
  lemma ColumnSkipped(units: nat, before: seq<bv8>, now: seq<bv8>, img: seq<bv8>, base: int, height: int, locX: int, y: int, j: int)
    requires |before| == 128 * units && j % 4 == 0
    requires j + y < 0 || j + y >= COM_SIZE
    requires ColumnDone(before, now, img, base, height, locX, y, j)
    ensures ColumnDone(before, now, img, base, height, locX, y, j + 4)
  {
    forall a | 0 <= a < |now|
      ensures Step(y, RowOf(a)) < j + 4 ==> Step(y, RowOf(a)) < j
    {
      PixelOfCell(units, a);
      NoSuchRow(y, RowOf(a), j);
    }
  }

  lemma NoSuchRow(y: int, q: nat, j: int)
    requires q < 4 && j % 4 == 0
    requires j + y < 0 || j + y >= COM_SIZE
    ensures Step(y, q) < j + 4 ==> Step(y, q) < j
  {
  }

  /** The engine's write at step j leaves the column done up to the next step. */
  lemma ColumnStored(units: nat, before: seq<bv8>, now: seq<bv8>, img: seq<bv8>, base: int, height: int, locX: int, y: int, j: int)
    requires |before| == 128 * units && j % 4 == 0
    requires OnScreen(units, locX, j + y)
    requires ColumnDone(before, now, img, base, height, locX, y, j)
    ensures var a := Addr(locX, j + y);
            && a < |now| && now[a] == before[a]
            && ColumnDone(before, now[a := ColumnCell(img, base, height, y, (j + y) / 4, now[a])], img, base, height, locX, y, j + 4)
  {
    hide Addr, ColOf, RowOf, Step, Stride, ColumnCell;
    CellOfPixel(units, locX, j + y);
    var at := Addr(locX, j + y);
    var q := (j + y) / 4;
    StepIs(y, q, j);
    forall a | 0 <= a < |now|
      ensures ColOf(a) == locX && j <= Step(y, RowOf(a)) < j + 4 <==> a == at
    {
      PixelOfCell(units, a);
      PixelOfCell(units, at);
      StepApart(y, RowOf(a), q);
    }
  }

  lemma StepIs(y: int, q: int, j: int)
    requires j % 4 == 0 && q == (j + y) / 4
    ensures Step(y, q) == j
  {
  }

  lemma StepApart(y: int, p: int, q: int)
    ensures Step(y, q) <= Step(y, p) < Step(y, q) + 4 <==> p == q
  {
  }

  /** What step j writes into a cell is a merge of `ink` under `mask`. */
  ghost predicate StepMerges(img: seq<bv8>, base: int, height: int, y: int, j: int, mask: bv8, ink: bv8) {
    && (height > 0 ==> 0 <= base && base + Stride(height) <= |img|)
    && forall cell: bv8 :: Merge(cell, mask, ink) == ColumnCell(img, base, height, y, (j + y) / 4, cell)
  }

  lemma BottomMaskKeeps(roomy: int, left: int)
    requires left >= 0
    ensures BottomMask(roomy, 4 - left) == LowBits(Kept(roomy, left))
  {
  }

  lemma FlushMask(c: nat)
    requires 1 <= c < 4
    ensures Down(0xF, 4 - c) == LowBits(c)
  {
  }

  lemma AlignedStep(img: seq<bv8>, base: int, height: int, y: int, j: int)
    requires 0 <= j < height && j % 4 == 0 && (j + y) % 4 == 0
    requires 0 <= base && base + Stride(height) <= |img|
    ensures StepMerges(img, base, height, y, j, BottomMask(height - (j + y), 4 - (height - j)), img[base + j / 4])
  {
    hide Merge, LowBits, Up, Down, BottomMask, Kept;
    StepIs(y, (j + y) / 4, j);
    BottomMaskKeeps(height - (j + y), height - j);
  }

  lemma FirstStep(img: seq<bv8>, base: int, height: int, y: int)
    requires 0 < height && y % 4 != 0
    requires 0 <= base && base + Stride(height) <= |img|
    ensures StepMerges(img, base, height, y, 0, BottomMask(height - y, 4 - height) & Up(0xF, y % 4), Up(img[base], y % 4))
  {
    hide Merge, LowBits, Up, Down, BottomMask, Kept;
    StepIs(y, y / 4, 0);
    BottomMaskKeeps(height - y, height);
  }

  lemma MiddleStep(img: seq<bv8>, base: int, height: int, y: int, j: int)
    requires 0 < j < height && j % 4 == 0 && y % 4 != 0
    requires 0 <= base && base + Stride(height) <= |img|
    ensures StepMerges(img, base, height, y, j, BottomMask(height - (j + y), 4 - (height + y % 4 - j)),
                       CarriedInk(img[base + j / 4], img[base + j / 4 - 1], y % 4))
  {
    hide Merge, LowBits, CarriedInk, BottomMask, Kept;
    StepIs(y, (j + y) / 4, j);
    BottomMaskKeeps(height - (j + y), height + y % 4 - j);
  }

  lemma LastStep(img: seq<bv8>, base: int, height: int, y: int, j: int)
    requires 0 < height <= j < height + 4 && j % 4 == 0 && y % 4 != 0
    requires 0 <= base && base + Stride(height) <= |img|
    ensures StepMerges(img, base, height, y, j, Down(0xF, 4 - y % 4), Down(img[base + j / 4 - 1], 4 - y % 4))
  {
    hide Merge, LowBits, Up, Down, BottomMask, Kept;
    StepIs(y, (j + y) / 4, j);
    FlushMask(y % 4);
  }

  /** The column with the whole image in it. */
  ghost predicate ColumnBlitted(before: seq<bv8>, now: seq<bv8>, img: seq<bv8>, base: int, height: int, locX: int, y: int) {
    && |now| == |before|
    && (height > 0 ==> 0 <= base && base + Stride(height) <= |img|)
    && forall a :: 0 <= a < |now| ==>
         now[a] == if ColOf(a) == locX then ColumnCell(img, base, height, y, RowOf(a), before[a]) else before[a]
  }

  /** The loop ends past the carry flush, or with nothing carried over: no step that is
      left would have written. */
  lemma ColumnFinished(units: nat, before: seq<bv8>, now: seq<bv8>, img: seq<bv8>, base: int, height: int, locX: int, y: int, j: int)
    requires |before| == 128 * units && j >= 0 && j % 4 == 0 && j >= height
    requires j >= height + 4 || y % 4 == 0 || j == 0 || !(-4 < j - 4 + y < COM_SIZE)
    requires ColumnDone(before, now, img, base, height, locX, y, j)
    ensures ColumnBlitted(before, now, img, base, height, locX, y)
  {
    forall a | 0 <= a < |now| && Step(y, RowOf(a)) >= j
      ensures ColumnCell(img, base, height, y, RowOf(a), before[a]) == before[a]
    {
      PixelOfCell(units, a);
      NothingLeft(img, base, height, y, j, RowOf(a), before[a]);
    }
  }

  lemma NothingLeft(img: seq<bv8>, base: int, height: int, y: int, j: int, q: nat, cell: bv8)
    requires height > 0 ==> 0 <= base && base + Stride(height) <= |img|
    requires q < 4 && j >= 0 && j % 4 == 0 && j >= height && Step(y, q) >= j
    requires j >= height + 4 || y % 4 == 0 || j == 0 || !(-4 < j - 4 + y < COM_SIZE)
    ensures ColumnCell(img, base, height, y, q, cell) == cell
  {
    hide Merge, LowBits, Up, Down;
    assert Step(y, q) % 4 == 0;
  }

  /** What the loop over a column knows before step j: the carry holds the nibble of the
      step before, if that step fell on the screen off a nibble boundary. */
  ghost predicate CarryState(img: seq<bv8>, base: int, height: int, y: int, j: int, valid: bool, carry: bv8) {
    && (height > 0 ==> 0 <= base && base + Stride(height) <= |img|)
    && 0 <= j && j % 4 == 0
    && (j > 0 ==> 0 < height && j < height + (if valid then 8 else 4))
    && (y % 4 != 0 && j > 0 && -4 < j - 4 + y < COM_SIZE ==> valid)
    && (valid ==> y % 4 != 0 && 0 < j && 0 < j + y)
    && (valid && j < height + 4 && j + y < COM_SIZE ==> carry == img[base + j / 4 - 1])
  }

  lemma CarryKept(img: seq<bv8>, base: int, height: int, y: int, j: int, valid: bool, carry: bv8)
    requires CarryState(img, base, height, y, j, valid, carry)
    requires j < if valid then height + 4 else height
    requires j + y <= -4 || j + y >= COM_SIZE || (j + y) % 4 == 0
    ensures CarryState(img, base, height, y, j + 4, valid, carry)
  {
  }

  lemma CarryTaken(img: seq<bv8>, base: int, height: int, y: int, j: int, valid: bool, carry: bv8)
    requires CarryState(img, base, height, y, j, valid, carry)
    requires j < if valid then height + 4 else height
    requires -4 < j + y < COM_SIZE && (j + y) % 4 != 0
    ensures CarryState(img, base, height, y, j + 4, true, if j < height then img[base + j / 4] else carry)
    ensures !valid && j + y > 0 ==> j == 0
  {
    hide Stride;
    NextNibble(height, y, j);
  }

  lemma NextNibble(height: int, y: int, j: int)
    requires j >= 0 && j % 4 == 0
    ensures (j + 4) % 4 == 0 && (j + 4) / 4 - 1 == j / 4
    ensures (j + y) % 4 == y % 4
    ensures j < height ==> 0 <= j / 4 < Stride(height)
  {
  }

  /** The first i columns of the image are in the buffer. */
  ghost predicate ColumnsDone(before: seq<bv8>, now: seq<bv8>, img: seq<bv8>, width: int, height: int, x: int, y: int, offset: int, i: int)
    requires Fits(img, width, height, offset)
  {
    && |now| == |before|
    && forall a :: 0 <= a < |now| ==>
         now[a] == if ColOf(a) < x + i then BlitCell(img, width, height, x, y, offset, a, before[a]) else before[a]
  }

  lemma ColumnAdded(before: seq<bv8>, now: seq<bv8>, after: seq<bv8>, img: seq<bv8>, width: int, height: int, x: int, y: int, offset: int, i: int)
    requires Fits(img, width, height, offset) && 0 <= i < width
    requires ColumnsDone(before, now, img, width, height, x, y, offset, i)
    requires ColumnBlitted(now, after, img, Base(height, offset, i), height, x + i, y)
    ensures ColumnsDone(before, after, img, width, height, x, y, offset, i + 1)
  {
    hide ColumnCell, ColOf, RowOf, Stride;
    forall a | 0 <= a < |after|
      ensures after[a] == if ColOf(a) < x + i + 1 then BlitCell(img, width, height, x, y, offset, a, before[a]) else before[a]
    {
      assert after[a] == if ColOf(a) == x + i then BlitCell(img, width, height, x, y, offset, a, now[a]) else now[a];
    }
  }

  lemma ColumnOffScreen(units: nat, before: seq<bv8>, now: seq<bv8>, img: seq<bv8>, width: int, height: int, x: int, y: int, offset: int, i: int)
    requires |before| == 128 * units
    requires Fits(img, width, height, offset) && 0 <= i < width && !(0 <= x + i < 32 * units)
    requires ColumnsDone(before, now, img, width, height, x, y, offset, i)
    ensures ColumnsDone(before, now, img, width, height, x, y, offset, i + 1)
  {
    forall a | 0 <= a < |now|
      ensures ColOf(a) != x + i
    {
      PixelOfCell(units, a);
    }
  }

  lemma ColumnsAll(units: nat, before: seq<bv8>, now: seq<bv8>, img: seq<bv8>, width: int, height: int, x: int, y: int, offset: int, i: int)
    requires |before| == 128 * units && Fits(img, width, height, offset)
    requires i == (if width > 0 then width else 0) && !Outside(units, width, height, x, y)
    requires ColumnsDone(before, now, img, width, height, x, y, offset, i)
    ensures now == Blit(units, before, img, width, height, x, y, offset)
  {
  }
}
