/** Text as a run of glyph images with gutter columns between them. */
module Lettering {
  import opened Geometry
  import opened Picture
  import opened CStrings

  const GLYPHS: nat := 64

  /** A font: glyph g is `widths[g]` columns of `height` rows at g * step. */
  datatype Font = Font(data: seq<bv8>, widths: seq<nat>, height: int, step: nat) {
    /** The data hold every glyph, and the one column that gutters are copied from. */
    predicate Complete() {
      && |widths| == GLYPHS
      && Fits(data, 1, height, 0)
      && forall g :: 0 <= g < GLYPHS ==> Fits(data, widths[g], height, g * step)
    }

    predicate Nibbles() { forall k :: 0 <= k < |data| ==> IsNibble(data[k]) }
  }

  /** The glyph for a byte, or -1 for a byte that is skipped. */
  function GlyphOf(ch: nat): (g: int)
    ensures 32 <= ch <= 95 ==> g == ch - 32
    ensures 97 <= ch <= 122 ==> g == ch - 64
    ensures ch < 32 || ch == 96 || ch > 122 ==> g == -1
    ensures -1 <= g < GLYPHS
  {
    var c := ch - 32;
    var upper := if 65 <= c <= 90 then c - 32 else c;
    if upper < 0 || upper >= GLYPHS then -1 else upper
  }

  /** `count` gutter columns from column x on. */
  function Gutter(units: nat, cells: seq<bv8>, font: Font, x: int, y: int, count: nat): (r: seq<bv8>)
    requires |cells| == 128 * units && font.Complete()
    ensures |r| == |cells|
  {
    if count == 0 then cells
    else Blit(units, Gutter(units, cells, font, x, y, count - 1), font.data, 1, font.height, x + count - 1, y, 0)
  }

  /** How many gutter columns are drawn. */
  function Columns(gutter: int): nat { if gutter > 0 then gutter else 0 }

  /** One glyph with the gutter after it. */
  function Letter(units: nat, cells: seq<bv8>, font: Font, g: nat, x: int, y: int, gutter: int): (r: seq<bv8>)
    requires |cells| == 128 * units && font.Complete() && g < GLYPHS
    ensures |r| == |cells|
  {
    Gutter(units, Blit(units, cells, font.data, font.widths[g], font.height, x, y, g * font.step), font, x + font.widths[g], y, Columns(gutter))
  }

  /** Every character and gutter drawn, uncut. */
  function Typeset(units: nat, cells: seq<bv8>, text: seq<nat>, font: Font, x: int, y: int, gutter: int): (r: seq<bv8>)
    requires |cells| == 128 * units && font.Complete()
    ensures |r| == |cells|
    decreases text
  {
    if text == [] then cells
    else
      var g := GlyphOf(text[0]);
      if g == -1 then Typeset(units, cells, text[1..], font, x, y, gutter)
      else Typeset(units, Letter(units, cells, font, g, x, y, gutter), text[1..], font, x + font.widths[g] + gutter, y, gutter)
  }

  /** Where the cursor stands after the text. */
  function Cursor(text: seq<nat>, font: Font, x: int, gutter: int): int
    requires |font.widths| == GLYPHS
    decreases text
  {
    if text == [] then x
    else
      var g := GlyphOf(text[0]);
      Cursor(text[1..], font, if g == -1 then x else x + font.widths[g] + gutter, gutter)
  }

  lemma {:induction false} CursorShift(text: seq<nat>, font: Font, x: int, d: int, gutter: int)
    requires |font.widths| == GLYPHS
    ensures Cursor(text, font, x + d, gutter) == Cursor(text, font, x, gutter) + d
    decreases text
  {
    if text != [] {
      var g := GlyphOf(text[0]);
      CursorShift(text[1..], font, if g == -1 then x else x + font.widths[g] + gutter, d, gutter);
    }
  }

  /** The cursor over a C string, read on from position i. */
  lemma CursorFrom(text: seq<nat>, i: nat, font: Font, x: int, gutter: int)
    requires |font.widths| == GLYPHS && i <= |text|
    ensures Cursor(CString(text[i..], 0), font, x, gutter) ==
              if i == |text| || text[i] == 0 then x
              else
                var g := GlyphOf(text[i]);
                Cursor(CString(text[i + 1..], 0), font, if g == -1 then x else x + font.widths[g] + gutter, gutter)
  {
    hide CString;
    CStringFrom(text, 0, i);
    if i < |text| && text[i] != 0 {
      assert CString(text[i..], 0)[1..] == CString(text[i + 1..], 0);
    }
  }

  /** A text is one character after the other, each from the cursor that the text before it
      has left. */
  lemma {:induction false} CursorAppend(a: seq<nat>, b: seq<nat>, font: Font, x: int, gutter: int)
    requires |font.widths| == GLYPHS
    ensures Cursor(a + b, font, x, gutter) == Cursor(b, font, Cursor(a, font, x, gutter), gutter)
    decreases a
  {
    if a == [] {
      assert a + b == b;
    } else {
      assert (a + b)[1..] == a[1..] + b;
      var g := GlyphOf(a[0]);
      CursorAppend(a[1..], b, font, if g == -1 then x else x + font.widths[g] + gutter, gutter);
    }
  }

  /** What one character moves the cursor by: capital letters, digits and signs by the width
      of the glyph 32 below their code, small letters by that of their capital. */
  lemma CursorOfOne(ch: nat, font: Font, x: int, gutter: int)
    requires |font.widths| == 64
    ensures Cursor([ch], font, x, gutter) ==
              if 32 <= ch <= 95 then x + font.widths[ch - 32] + gutter
              else if 97 <= ch <= 122 then x + font.widths[ch - 64] + gutter
              else x
  {
    assert [ch][1..] == [];
  }

  function UpperCase(ch: nat): nat { if 97 <= ch <= 122 then ch - 32 else ch }

  /** A text in capital letters. */
  function Capitals(text: seq<nat>): (r: seq<nat>)
    ensures |r| == |text| && forall k :: 0 <= k < |text| ==> r[k] == if 97 <= text[k] <= 122 then text[k] - 32 else text[k]
  {
    seq(|text|, k requires 0 <= k < |text| => UpperCase(text[k]))
  }

  /** Small letters are drawn and measured as capitals. */
  lemma {:induction false} CaseIsFolded(units: nat, cells: seq<bv8>, text: seq<nat>, font: Font, x: int, y: int, gutter: int)
    requires |cells| == 128 * units && font.Complete()
    ensures Typeset(units, cells, Capitals(text), font, x, y, gutter) == Typeset(units, cells, text, font, x, y, gutter)
    ensures CulledRow(units, cells, Capitals(text), font, x, y, gutter) == CulledRow(units, cells, text, font, x, y, gutter)
    ensures Culled(units, cells, Capitals(text), font, x, y, gutter) == Culled(units, cells, text, font, x, y, gutter)
    ensures Cursor(Capitals(text), font, x, gutter) == Cursor(text, font, x, gutter)
    decreases text
  {
    if text != [] {
      hide Letter;
      assert Capitals(text)[1..] == Capitals(text[1..]);
      var g := GlyphOf(text[0]);
      assert GlyphOf(Capitals(text)[0]) == g;
      if g == -1 {
        CaseIsFolded(units, cells, text[1..], font, x, y, gutter);
      } else {
        var next := x + font.widths[g] + gutter;
        CaseIsFolded(units, Letter(units, cells, font, g, x, y, gutter), text[1..], font, next, y, gutter);
        CaseIsFolded(units, cells, text[1..], font, next, y, gutter);
      }
    }
  }

  // ---------------------------------------------------------------- culling

  /** An image whose columns are all off the screen changes nothing. */
  lemma BlankColumns(units: nat, cells: seq<bv8>, img: seq<bv8>, width: int, height: int, x: int, y: int, offset: int)
    requires |cells| == 128 * units && Fits(img, width, height, offset)
    requires x + width <= 0 || x >= 32 * units
    ensures Blit(units, cells, img, width, height, x, y, offset) == cells
  {
    var r := Blit(units, cells, img, width, height, x, y, offset);
    forall a | 0 <= a < |cells|
      ensures r[a] == cells[a]
    {
      PixelOfCell(units, a);
    }
  }

  /** Nor does one whose rows are all off the screen, as the text engine judges it. */
  lemma BlankRows(units: nat, cells: seq<bv8>, img: seq<bv8>, width: int, height: int, x: int, y: int, offset: int)
    requires |cells| == 128 * units && Fits(img, width, height, offset)
    requires y + height < 0 || y >= COM_SIZE
    ensures Blit(units, cells, img, width, height, x, y, offset) == cells
  {
  }

  lemma {:induction false} BlankGutter(units: nat, cells: seq<bv8>, font: Font, x: int, y: int, count: nat)
    requires |cells| == 128 * units && font.Complete()
    requires x + count <= 0 || x >= 32 * units || y + font.height < 0 || y >= COM_SIZE
    ensures Gutter(units, cells, font, x, y, count) == cells
  {
    if count > 0 {
      BlankGutter(units, cells, font, x, y, count - 1);
      if x + count <= 0 || x >= 32 * units {
        BlankColumns(units, cells, font.data, 1, font.height, x + count - 1, y, 0);
      } else {
        BlankRows(units, cells, font.data, 1, font.height, x + count - 1, y, 0);
      }
    }
  }

  /** A letter the engine skips, on any of its three grounds, would have drawn nothing. */
  lemma BlankLetter(units: nat, cells: seq<bv8>, font: Font, g: nat, x: int, y: int, gutter: nat)
    requires |cells| == 128 * units && font.Complete() && g < GLYPHS
    requires x + font.widths[g] + gutter < 0 || x >= 32 * units || y + font.height < 0 || y >= COM_SIZE
    ensures Letter(units, cells, font, g, x, y, gutter) == cells
  {
    if y + font.height < 0 || y >= COM_SIZE {
      BlankRows(units, cells, font.data, font.widths[g], font.height, x, y, g * font.step);
    } else {
      BlankColumns(units, cells, font.data, font.widths[g], font.height, x, y, g * font.step);
    }
    BlankGutter(units, cells, font, x + font.widths[g], y, gutter);
  }

  /** Past the right edge, or outside the rows, the rest of the text draws nothing. */
  lemma {:induction false} BlankText(units: nat, cells: seq<bv8>, text: seq<nat>, font: Font, x: int, y: int, gutter: nat)
    requires |cells| == 128 * units && font.Complete()
    requires x >= 32 * units || y + font.height < 0 || y >= COM_SIZE
    ensures Typeset(units, cells, text, font, x, y, gutter) == cells
    decreases text
  {
    if text != [] {
      var g := GlyphOf(text[0]);
      if g != -1 {
        BlankLetter(units, cells, font, g, x, y, gutter);
      }
      BlankText(units, cells, text[1..], font, if g == -1 then x else x + font.widths[g] + gutter, y, gutter);
    }
  }

  /** The text with what the engine leaves out left out: nothing at all outside the rows of
      the screen, letters left of it, and everything from the right edge on. */
  function Culled(units: nat, cells: seq<bv8>, text: seq<nat>, font: Font, x: int, y: int, gutter: int): (r: seq<bv8>)
    requires |cells| == 128 * units && font.Complete()
    ensures |r| == |cells|
  {
    if y + font.height < 0 || y >= COM_SIZE then cells else CulledRow(units, cells, text, font, x, y, gutter)
  }

  function CulledRow(units: nat, cells: seq<bv8>, text: seq<nat>, font: Font, x: int, y: int, gutter: int): (r: seq<bv8>)
    requires |cells| == 128 * units && font.Complete()
    ensures |r| == |cells|
    decreases text
  {
    if text == [] then cells
    else
      var g := GlyphOf(text[0]);
      if g == -1 then CulledRow(units, cells, text[1..], font, x, y, gutter)
      else if x >= 32 * units then cells
      else
        var next := x + font.widths[g] + gutter;
        var drawn := if next >= 0 then Letter(units, cells, font, g, x, y, gutter) else cells;
        CulledRow(units, drawn, text[1..], font, next, y, gutter)
  }

  /** The culled text over a C string, read on from position i. */
  lemma CulledRowFrom(units: nat, cells: seq<bv8>, text: seq<nat>, i: nat, font: Font, x: int, y: int, gutter: int)
    requires |cells| == 128 * units && font.Complete() && i <= |text|
    ensures CulledRow(units, cells, CString(text[i..], 0), font, x, y, gutter) ==
              if i == |text| || text[i] == 0 then cells
              else
                var g := GlyphOf(text[i]);
                if g == -1 then CulledRow(units, cells, CString(text[i + 1..], 0), font, x, y, gutter)
                else if x >= 32 * units then cells
                else
                  var next := x + font.widths[g] + gutter;
                  var drawn := if next >= 0 then Letter(units, cells, font, g, x, y, gutter) else cells;
                  CulledRow(units, drawn, CString(text[i + 1..], 0), font, next, y, gutter)
  {
    hide CString, Letter, Font.Complete;
    CStringFrom(text, 0, i);
    if i < |text| && text[i] != 0 {
      assert CString(text[i..], 0)[1..] == CString(text[i + 1..], 0);
    }
  }

  lemma {:induction false} CulledRowIsUncut(units: nat, cells: seq<bv8>, text: seq<nat>, font: Font, x: int, y: int, gutter: nat)
    requires |cells| == 128 * units && font.Complete()
    ensures CulledRow(units, cells, text, font, x, y, gutter) == Typeset(units, cells, text, font, x, y, gutter)
    decreases text
  {
    if text != [] {
      hide Letter;
      var g := GlyphOf(text[0]);
      if g == -1 {
        CulledRowIsUncut(units, cells, text[1..], font, x, y, gutter);
      } else if x >= 32 * units {
        BlankText(units, cells, text, font, x, y, gutter);
      } else {
        var next := x + font.widths[g] + gutter;
        if next < 0 {
          BlankLetter(units, cells, font, g, x, y, gutter);
        }
        CulledRowIsUncut(units, Letter(units, cells, font, g, x, y, gutter), text[1..], font, next, y, gutter);
      }
    }
  }

  lemma CulledIsUncut(units: nat, cells: seq<bv8>, text: seq<nat>, font: Font, x: int, y: int, gutter: nat)
    requires |cells| == 128 * units && font.Complete()
    ensures Culled(units, cells, text, font, x, y, gutter) == Typeset(units, cells, text, font, x, y, gutter)
  {
    hide Typeset, CulledRow;
    if y + font.height < 0 || y >= COM_SIZE {
      BlankText(units, cells, text, font, x, y, gutter);
    } else {
      CulledRowIsUncut(units, cells, text, font, x, y, gutter);
    }
  }

  /** A font in which the space has no width and every other character one column. */
  const NARROW := Font(seq(64, _ => 0xF), seq(64, g => if g == 0 then 0 else 1), 4, 1)

  lemma NarrowIsComplete()
    ensures NARROW.Complete()
  {
  }

  /** A space just past the right edge, and a letter that the negative gutter brings back
      to the last column of the screen: uncut it is drawn, but the engine has stopped. */
  lemma CutShort(gutter: int)
    requires gutter < 0
    ensures NARROW.Complete()
    ensures Culled(1, Dark(1), [32, 33], NARROW, 31 - gutter, 0, gutter) != Typeset(1, Dark(1), [32, 33], NARROW, 31 - gutter, 0, gutter)
  {
    hide Letter, Dark;
    NarrowIsComplete();
    var before := Dark(1);
    SpaceIsBlank(before, 31 - gutter, gutter);
    LetterMarks(gutter);
    assert [32, 33][1..] == [33] && [33][1..] == [];
    assert Typeset(1, before, [33], NARROW, 31, 0, gutter) == Typeset(1, Letter(1, before, NARROW, 1, 31, 0, gutter), [], NARROW, 32 + gutter, 0, gutter);
  }

  lemma SpaceIsBlank(cells: seq<bv8>, x: int, gutter: int)
    requires |cells| == 128 && gutter < 0 && x >= 32 && NARROW.Complete()
    ensures Letter(1, cells, NARROW, 0, x, 0, gutter) == cells
  {
    hide Blit;
    BlankColumns(1, cells, NARROW.data, 0, 4, x, 0, 0);
  }

  /** The letter leaves a rewrite bit in the cell of pixel (31, 0). */
  lemma LetterMarks(gutter: int)
    requires gutter < 0 && NARROW.Complete()
    ensures Letter(1, Dark(1), NARROW, 1, 31, 0, gutter) != Dark(1)
  {
    hide ColumnCell, Addr, ColOf, RowOf;
    CellOfPixel(1, 31, 0);
    var a := Addr(31, 0);
    var letter := Letter(1, Dark(1), NARROW, 1, 31, 0, gutter);
    assert letter == Blit(1, Dark(1), NARROW.data, 1, 4, 31, 0, 1);
    assert letter[a] == ColumnCell(NARROW.data, 1, 4, 0, 0, 0);
    TopCellMarks();
  }

  lemma TopCellMarks()
    ensures |NARROW.data| == 64 && ColumnCell(NARROW.data, 1, 4, 0, 0, 0) != 0
  {
    assert ColumnCell(NARROW.data, 1, 4, 0, 0, 0) == Merge(0, LowBits(4), NARROW.data[1]);
  }

  /** Culling is invisible, for every text, font and position, if and only if the gutter is
      not negative. */
  lemma CullingIsInvisible(gutter: int)
    ensures (forall units: nat, cells: seq<bv8>, text: seq<nat>, font: Font, x: int, y: int | |cells| == 128 * units && font.Complete() ::
              Culled(units, cells, text, font, x, y, gutter) == Typeset(units, cells, text, font, x, y, gutter)) <==> gutter >= 0
  {
    hide Culled, Typeset;
    if gutter >= 0 {
      forall units: nat, cells: seq<bv8>, text: seq<nat>, font: Font, x: int, y: int | |cells| == 128 * units && font.Complete()
        ensures Culled(units, cells, text, font, x, y, gutter) == Typeset(units, cells, text, font, x, y, gutter)
      {
        CulledIsUncut(units, cells, text, font, x, y, gutter);
      }
    } else {
      CutShort(gutter);
    }
  }
}
