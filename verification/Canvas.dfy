/** The display as its callers think of it: three pictures, each a set of lit pixels.
    `Draw` is what a call means to them, `Operate` is what it does to the driver's cell
    buffers, and the lemmas say that the two agree. */
module Canvas {
  import opened Geometry
  import opened Picture
  import opened Lettering
  import opened CStrings

  type Pixels = set<(int, int)>

  datatype Call =
    | DrawTarget(board: int)
    | SetPixel(px: int, py: int, on: bool)
    | DrawImage(img: seq<bv8>, width: int, height: int, x: int, y: int, offset: int)
    | DrawText(text: seq<nat>, x: int, y: int, font: Font, gutter: nat)
    | Clear
    | ClearAll
    | Transition(mode: int)
    | SetBrightness(level: int)
    | Blank
    | Reinit
    | Render
    | RenderAll
  {
    /** Image and font data are nibbles, and there are enough of them. */
    predicate Admissible() {
      match this
      case DrawImage(img, width, height, _, _, offset) =>
        Fits(img, width, height, offset) && forall k :: 0 <= k < |img| ==> IsNibble(img[k])
      case DrawText(_, _, _, font, _) => font.Complete() && font.Nibbles()
      case _ => true
    }
  }

  const BUFFER_SWAP := 0
  const SAVE := 1
  const SAVE_XOR := 2
  const REMOVE_PIXELS := 3
  const RESTORE := 4
  const RESTORE_OR := 5
  const FADE := 6

  // ---------------------------------------------------------------- pictures

  /** lit is false while the chips' LED drivers are off. */
  datatype Pictures = Pictures(target: int, brightness: int, lit: bool, pics: seq<Pixels>)

  function Screen(units: nat): Pixels {
    set x, y | 0 <= x < 32 * units && 0 <= y < 16 :: (x, y)
  }

  /** An image stamped onto a picture: covered pixels are the image's, the others stay. The
      image is stored column by column, in nibbles of four pixels from the top down. */
  ghost function Stamp(units: nat, pic: Pixels, img: seq<bv8>, width: int, height: int, x: int, y: int, offset: int): Pixels
    requires Fits(img, width, height, offset)
  {
    set p | p in Screen(units) &&
            if Covers(width, height, x, y, p.0, p.1)
            then InkInBounds(img, width, height, x, y, offset, p.0, p.1);
                 On(img[offset + (p.0 - x) * ((height + 3) / 4) + (p.1 - y) / 4], (p.1 - y) % 4)
            else p in pic
  }

  ghost function StampGutter(units: nat, pic: Pixels, font: Font, x: int, y: int, count: nat): Pixels
    requires font.Complete()
  {
    if count == 0 then pic
    else Stamp(units, StampGutter(units, pic, font, x, y, count - 1), font.data, 1, font.height, x + count - 1, y, 0)
  }

  ghost function Letters(units: nat, pic: Pixels, text: seq<nat>, font: Font, x: int, y: int, gutter: nat): Pixels
    requires font.Complete()
    decreases text
  {
    if text == [] then pic
    else
      var g := GlyphOf(text[0]);
      if g == -1 then Letters(units, pic, text[1..], font, x, y, gutter)
      else
        var glyph := Stamp(units, pic, font.data, font.widths[g], font.height, x, y, g * font.step);
        var spaced := StampGutter(units, glyph, font, x + font.widths[g], y, gutter);
        Letters(units, spaced, text[1..], font, x + font.widths[g] + gutter, y, gutter)
  }

  lemma StampedPixel(units: nat, pic: Pixels, img: seq<bv8>, width: int, height: int, x: int, y: int, offset: int,
                     px: nat, py: nat)
    requires Fits(img, width, height, offset) && px < 32 * units && py < 16
    ensures var nibble := offset + (px - x) * ((height + 3) / 4) + (py - y) / 4;
            && (Covers(width, height, x, y, px, py) ==> y <= py && 0 <= nibble < |img|)
            && ((px, py) in Stamp(units, pic, img, width, height, x, y, offset) <==>
                  if Covers(width, height, x, y, px, py) then On(img[nibble], (py - y) % 4) else (px, py) in pic)
  {
    hide Covers, On, Fits;
    if Covers(width, height, x, y, px, py) {
      InkInBounds(img, width, height, x, y, offset, px, py);
    }
  }

  lemma NoColumns(height: int, x: int, y: int, px: int, py: int)
    ensures !Covers(0, height, x, y, px, py)
  {
  }

  lemma OneColumnMore(count: nat, height: int, x: int, y: int, px: int, py: int)
    requires count > 0
    ensures Covers(count, height, x, y, px, py) <==>
              Covers(count - 1, height, x, y, px, py) || Covers(1, height, x + count - 1, y, px, py)
    ensures Covers(1, height, x + count - 1, y, px, py) ==> px == x + count - 1 && !Covers(count - 1, height, x, y, px, py)
  {
    hide Writes;
  }

  lemma FirstColumn(font: Font)
    requires font.Complete()
    ensures Fits(font.data, 1, font.height, 0)
  {
  }

  /** Letter spacing repeats the first column of the font data. */
  lemma {:induction false} GutterPixel(units: nat, pic: Pixels, font: Font, x: int, y: int, count: nat, px: nat, py: nat)
    requires font.Complete() && px < 32 * units && py < 16
    ensures Covers(count, font.height, x, y, px, py) ==> y <= py && (py - y) / 4 < |font.data|
    ensures (px, py) in StampGutter(units, pic, font, x, y, count) <==>
              if Covers(count, font.height, x, y, px, py) then On(font.data[(py - y) / 4], (py - y) % 4) else (px, py) in pic
  {
    hide On, Fits, Covers, Stamp, Font.Complete;
    if count == 0 {
      NoColumns(font.height, x, y, px, py);
    } else {
      OneColumnMore(count, font.height, x, y, px, py);
      FirstColumn(font);
      GutterPixel(units, pic, font, x, y, count - 1, px, py);
      StampedPixel(units, StampGutter(units, pic, font, x, y, count - 1), font.data, 1, font.height, x + count - 1, y, 0, px, py);
    }
  }

  /** What one character draws: its glyph, the one 32 below its code or below that of its
      capital, and the letter spacing to the right of it; and nothing if it has no glyph. */
  lemma LetterPixel(units: nat, pic: Pixels, ch: nat, font: Font, x: int, y: int, gutter: nat, px: nat, py: nat)
    requires font.Complete() && px < 32 * units && py < 16
    ensures ch < 32 || ch == 96 || ch > 122 ==> Letters(units, pic, [ch], font, x, y, gutter) == pic
    ensures 32 <= ch <= 122 && ch != 96 ==>
              var g := if ch <= 95 then ch - 32 else ch - 64;
              var width, height := font.widths[g], font.height;
              var nibble := g * font.step + (px - x) * ((height + 3) / 4) + (py - y) / 4;
              && (Covers(width, height, x, y, px, py) ==> y <= py && 0 <= nibble < |font.data|)
              && (Covers(gutter, height, x + width, y, px, py) ==> y <= py && (py - y) / 4 < |font.data|)
              && ((px, py) in Letters(units, pic, [ch], font, x, y, gutter) <==>
                    if Covers(gutter, height, x + width, y, px, py) then On(font.data[(py - y) / 4], (py - y) % 4)
                    else if Covers(width, height, x, y, px, py) then On(font.data[nibble], (py - y) % 4)
                    else (px, py) in pic)
  {
    hide On, Fits, Covers, Stamp, StampGutter;
    assert [ch][1..] == [];
    var g := GlyphOf(ch);
    if g != -1 {
      var width := font.widths[g];
      var glyph := Stamp(units, pic, font.data, width, font.height, x, y, g * font.step);
      StampedPixel(units, pic, font.data, width, font.height, x, y, g * font.step, px, py);
      GutterPixel(units, glyph, font, x + width, y, gutter, px, py);
    }
  }

  /** A text draws one character after the other, each at the cursor that the text before it
      has left. */
  lemma {:induction false} LettersAppend(units: nat, pic: Pixels, a: seq<nat>, b: seq<nat>, font: Font, x: int, y: int, gutter: nat)
    requires font.Complete()
    ensures Letters(units, pic, a + b, font, x, y, gutter) ==
            Letters(units, Letters(units, pic, a, font, x, y, gutter), b, font, Cursor(a, font, x, gutter), y, gutter)
    ensures Letters(units, pic, [], font, x, y, gutter) == pic
    decreases a
  {
    if a == [] {
      assert a + b == b;
    } else {
      hide Stamp, StampGutter, Font.Complete;
      assert (a + b)[1..] == a[1..] + b;
      var g := GlyphOf(a[0]);
      if g == -1 {
        LettersAppend(units, pic, a[1..], b, font, x, y, gutter);
      } else {
        var glyph := Stamp(units, pic, font.data, font.widths[g], font.height, x, y, g * font.step);
        var spaced := StampGutter(units, glyph, font, x + font.widths[g], y, gutter);
        LettersAppend(units, spaced, a[1..], b, font, x + font.widths[g] + gutter, y, gutter);
      }
    }
  }

  ghost function Draw(units: nat, c: Pictures, call: Call): Pictures
    requires |c.pics| == 3 && 0 <= c.target < 3 && call.Admissible()
  {
    var t := c.target;
    var pic := c.pics[t];
    match call
    case DrawTarget(board) => if 0 <= board < 3 then c.(target := board) else c
    case SetPixel(px, py, on) =>
      if (px, py) !in Screen(units) then c
      else c.(pics := c.pics[t := if on then pic + {(px, py)} else pic - {(px, py)}])
    case DrawImage(img, width, height, x, y, offset) =>
      c.(pics := c.pics[t := Stamp(units, pic, img, width, height, x, y, offset)])
    case DrawText(text, x, y, font, gutter) =>
      c.(pics := c.pics[t := Letters(units, pic, CString(text, 0), font, x, y, gutter)])
    case Clear => c.(pics := c.pics[t := {}])
    case ClearAll => c.(pics := [{}, {}, {}])
    case Transition(mode) =>
      if t == 2 then c
      else
        var saved := c.pics[2];
        if mode == BUFFER_SWAP then c.(pics := c.pics[t := saved][2 := pic])
        else if mode == SAVE then c.(pics := c.pics[2 := pic])
        else if mode == SAVE_XOR then c.(pics := c.pics[2 := (saved - pic) + (pic - saved)])
        else if mode == REMOVE_PIXELS then c.(pics := c.pics[2 := saved - pic])
        else if mode == RESTORE then c.(pics := c.pics[t := saved])
        else if mode == RESTORE_OR then c.(pics := c.pics[t := pic + saved])
        else if mode == FADE then c.(pics := c.pics[t := saved][2 := {}])
        else c
    case SetBrightness(level) => if 1 <= level <= 16 then c.(brightness := level) else c
    case Blank => c.(lit := false)
    case Reinit => c.(lit := true)
    case Render => c
    case RenderAll => c
  }

  ghost function DrawAll(units: nat, c: Pictures, calls: seq<Call>): (r: Pictures)
    requires |c.pics| == 3 && 0 <= c.target < 3
    requires forall k :: 0 <= k < |calls| ==> calls[k].Admissible()
    ensures |r.pics| == 3 && 0 <= r.target < 3
  {
    if calls == [] then c
    else Draw(units, DrawAll(units, c, calls[..|calls| - 1]), calls[|calls| - 1])
  }

  // ---------------------------------------------------------------- cell buffers

  datatype Frame = Frame(target: int, brightness: int, lit: bool, cells: seq<seq<bv8>>) {
    ghost predicate Sized(units: nat) {
      |cells| == 3 && 0 <= target < 3 && |cells[0]| == |cells[1]| == |cells[2]| == 128 * units
    }
  }

  function XorCell(a: bv8, b: bv8): bv8 { a ^ b }

  function WithoutCell(a: bv8, b: bv8): bv8 { a & !b }

  function UnionCell(a: bv8, b: bv8): bv8 { a | b }

  function Xor(a: seq<bv8>, b: seq<bv8>): (r: seq<bv8>)
    requires |a| == |b|
    ensures |r| == |a|
  {
    seq(|a|, i requires 0 <= i < |a| => XorCell(a[i], b[i]))
  }

  function Without(a: seq<bv8>, b: seq<bv8>): (r: seq<bv8>)
    requires |a| == |b|
    ensures |r| == |a|
  {
    seq(|a|, i requires 0 <= i < |a| => WithoutCell(a[i], b[i]))
  }

  function Union(a: seq<bv8>, b: seq<bv8>): (r: seq<bv8>)
    requires |a| == |b|
    ensures |r| == |a|
  {
    seq(|a|, i requires 0 <= i < |a| => UnionCell(a[i], b[i]))
  }

  function Transit(units: nat, t: int, cells: seq<seq<bv8>>, mode: int): (r: seq<seq<bv8>>)
    requires |cells| == 3 && 0 <= t < 3 && |cells[0]| == |cells[1]| == |cells[2]| == 128 * units
    ensures |r| == 3 && |r[0]| == |r[1]| == |r[2]| == 128 * units
  {
    var now, saved := cells[t], cells[2];
    if t == 2 then cells
    else if mode == BUFFER_SWAP then cells[t := saved][2 := now]
    else if mode == SAVE then cells[2 := now]
    else if mode == SAVE_XOR then cells[2 := Xor(saved, now)]
    else if mode == REMOVE_PIXELS then cells[2 := Without(saved, now)]
    else if mode == RESTORE then cells[t := saved]
    else if mode == RESTORE_OR then cells[t := Union(now, saved)]
    else if mode == FADE then cells[t := saved][2 := Dark(units)]
    else cells
  }

  function Operate(units: nat, f: Frame, call: Call): (r: Frame)
    requires f.Sized(units) && call.Admissible()
    ensures r.Sized(units)
  {
    var t, cells := f.target, f.cells[f.target];
    match call
    case DrawTarget(board) => if 0 <= board < 3 then f.(target := board) else f
    case SetPixel(px, py, on) => f.(cells := f.cells[t := Plot(units, cells, px, py, on)])
    case DrawImage(img, width, height, x, y, offset) =>
      f.(cells := f.cells[t := Blit(units, cells, img, width, height, x, y, offset)])
    case DrawText(text, x, y, font, gutter) =>
      f.(cells := f.cells[t := Typeset(units, cells, CString(text, 0), font, x, y, gutter)])
    case Clear => f.(cells := f.cells[t := Dark(units)])
    case ClearAll => f.(cells := [Dark(units), Dark(units), Dark(units)])
    case Transition(mode) => f.(cells := Transit(units, t, f.cells, mode))
    case SetBrightness(level) => if 1 <= level <= 16 then f.(brightness := level) else f
    case Blank => f.(lit := false)
    case Reinit => f.(lit := true)
    case Render => f
    case RenderAll => f
  }

  // ---------------------------------------------------------------- agreement

  /** Is pixel (x, y) of the screen lit in these cells? */
  ghost predicate Lights(units: nat, cells: seq<bv8>, x: int, y: int)
    requires |cells| == 128 * units && OnScreen(units, x, y)
  {
    CellOfPixel(units, x, y);
    On(cells[Addr(x, y)], y % 4)
  }

  /** The picture that the cells hold. */
  ghost function Lit(units: nat, cells: seq<bv8>): Pixels
    requires |cells| == 128 * units
  {
    set p | p in Screen(units) && Lights(units, cells, p.0, p.1)
  }

  ghost function View(units: nat, f: Frame): (r: Pictures)
    requires f.Sized(units)
    ensures |r.pics| == 3 && 0 <= r.target < 3
  {
    Pictures(f.target, f.brightness, f.lit, [Lit(units, f.cells[0]), Lit(units, f.cells[1]), Lit(units, f.cells[2])])
  }

  lemma LitPlot(units: nat, cells: seq<bv8>, x: int, y: int, on: bool)
    requires |cells| == 128 * units
    ensures Lit(units, Plot(units, cells, x, y, on)) ==
            if (x, y) !in Screen(units) then Lit(units, cells)
            else if on then Lit(units, cells) + {(x, y)} else Lit(units, cells) - {(x, y)}
  {
    forall p | p in Screen(units)
      ensures Lights(units, Plot(units, cells, x, y, on), p.0, p.1) == if p == (x, y) then on else Lights(units, cells, p.0, p.1)
    {
      PlotPixel(units, cells, x, y, on, p.0, p.1);
    }
  }

  lemma LitBlit(units: nat, cells: seq<bv8>, img: seq<bv8>, width: int, height: int, x: int, y: int, offset: int)
    requires |cells| == 128 * units && Fits(img, width, height, offset)
    requires forall k :: 0 <= k < |img| ==> IsNibble(img[k])
    ensures Lit(units, Blit(units, cells, img, width, height, x, y, offset)) ==
            Stamp(units, Lit(units, cells), img, width, height, x, y, offset)
  {
    var after := Blit(units, cells, img, width, height, x, y, offset);
    var stamped := Stamp(units, Lit(units, cells), img, width, height, x, y, offset);
    forall p | p in Screen(units)
      ensures Lights(units, after, p.0, p.1) <==> p in stamped
    {
      BlitPixel(units, cells, img, width, height, x, y, offset, p.0, p.1);
    }
  }

  lemma {:induction false} LitGutter(units: nat, cells: seq<bv8>, font: Font, x: int, y: int, count: nat)
    requires |cells| == 128 * units && font.Complete() && font.Nibbles()
    ensures Lit(units, Gutter(units, cells, font, x, y, count)) == StampGutter(units, Lit(units, cells), font, x, y, count)
  {
    if count > 0 {
      LitGutter(units, cells, font, x, y, count - 1);
      LitBlit(units, Gutter(units, cells, font, x, y, count - 1), font.data, 1, font.height, x + count - 1, y, 0);
    }
  }

  lemma {:induction false} LitTypeset(units: nat, cells: seq<bv8>, text: seq<nat>, font: Font, x: int, y: int, gutter: nat)
    requires |cells| == 128 * units && font.Complete() && font.Nibbles()
    ensures Lit(units, Typeset(units, cells, text, font, x, y, gutter)) == Letters(units, Lit(units, cells), text, font, x, y, gutter)
    decreases text
  {
    if text != [] {
      var g := GlyphOf(text[0]);
      if g == -1 {
        LitTypeset(units, cells, text[1..], font, x, y, gutter);
      } else {
        LitBlit(units, cells, font.data, font.widths[g], font.height, x, y, g * font.step);
        var glyph := Blit(units, cells, font.data, font.widths[g], font.height, x, y, g * font.step);
        LitGutter(units, glyph, font, x + font.widths[g], y, gutter);
        LitTypeset(units, Letter(units, cells, font, g, x, y, gutter), text[1..], font, x + font.widths[g] + gutter, y, gutter);
      }
    }
  }

  lemma CellXor(a: bv8, b: bv8, k: nat)
    requires k < 4
    ensures On(XorCell(a, b), k) <==> On(a, k) != On(b, k)
  {
  }

  lemma CellWithout(a: bv8, b: bv8, k: nat)
    requires k < 4
    ensures On(WithoutCell(a, b), k) <==> On(a, k) && !On(b, k)
  {
  }

  lemma CellUnion(a: bv8, b: bv8, k: nat)
    requires k < 4
    ensures On(UnionCell(a, b), k) <==> On(a, k) || On(b, k)
  {
  }

  lemma LitXor(units: nat, a: seq<bv8>, b: seq<bv8>)
    requires |a| == |b| == 128 * units
    ensures Lit(units, Xor(a, b)) == (Lit(units, a) - Lit(units, b)) + (Lit(units, b) - Lit(units, a))
  {
    hide On, Addr, XorCell;
    forall p | p in Screen(units)
      ensures Lights(units, Xor(a, b), p.0, p.1) <==> Lights(units, a, p.0, p.1) != Lights(units, b, p.0, p.1)
    {
      CellOfPixel(units, p.0, p.1);
      CellXor(a[Addr(p.0, p.1)], b[Addr(p.0, p.1)], p.1 % 4);
    }
  }

  lemma LitWithout(units: nat, a: seq<bv8>, b: seq<bv8>)
    requires |a| == |b| == 128 * units
    ensures Lit(units, Without(a, b)) == Lit(units, a) - Lit(units, b)
  {
    hide On, Addr, WithoutCell;
    forall p | p in Screen(units)
      ensures Lights(units, Without(a, b), p.0, p.1) <==> Lights(units, a, p.0, p.1) && !Lights(units, b, p.0, p.1)
    {
      CellOfPixel(units, p.0, p.1);
      CellWithout(a[Addr(p.0, p.1)], b[Addr(p.0, p.1)], p.1 % 4);
    }
  }

  lemma LitUnion(units: nat, a: seq<bv8>, b: seq<bv8>)
    requires |a| == |b| == 128 * units
    ensures Lit(units, Union(a, b)) == Lit(units, a) + Lit(units, b)
  {
    hide On, Addr, UnionCell;
    forall p | p in Screen(units)
      ensures Lights(units, Union(a, b), p.0, p.1) <==> Lights(units, a, p.0, p.1) || Lights(units, b, p.0, p.1)
    {
      CellOfPixel(units, p.0, p.1);
      CellUnion(a[Addr(p.0, p.1)], b[Addr(p.0, p.1)], p.1 % 4);
    }
  }

  lemma LitDark(units: nat)
    ensures Lit(units, Dark(units)) == {}
  {
    forall p | p in Screen(units)
      ensures !Lights(units, Dark(units), p.0, p.1)
    {
      CellOfPixel(units, p.0, p.1);
    }
  }

  lemma TransitDraws(units: nat, f: Frame, mode: int)
    requires f.Sized(units)
    ensures View(units, Operate(units, f, Transition(mode))) == Draw(units, View(units, f), Transition(mode))
    ensures var t, pics := f.target, View(units, f).pics;
            View(units, Operate(units, f, Transition(mode))).pics ==
              if t == 2 then pics
              else if mode == 0 then pics[t := pics[2]][2 := pics[t]]
              else if mode == 1 then pics[2 := pics[t]]
              else if mode == 2 then pics[2 := (pics[2] - pics[t]) + (pics[t] - pics[2])]
              else if mode == 3 then pics[2 := pics[2] - pics[t]]
              else if mode == 4 then pics[t := pics[2]]
              else if mode == 5 then pics[t := pics[t] + pics[2]]
              else if mode == 6 then pics[t := pics[2]][2 := {}]
              else pics
  {
    hide Lit, Xor, Without, Union, Dark, Screen;
    var saved, now := f.cells[2], f.cells[f.target];
    LitXor(units, saved, now);
    LitWithout(units, saved, now);
    LitUnion(units, now, saved);
    LitDark(units);
  }

  /** Every call does to the pictures in the buffers what it means to its caller. */
  lemma OperateDraws(units: nat, f: Frame, call: Call)
    requires f.Sized(units) && call.Admissible()
    ensures View(units, Operate(units, f, call)) == Draw(units, View(units, f), call)
  {
    var cells := f.cells[f.target];
    match call {
      case SetPixel(px, py, on) => LitPlot(units, cells, px, py, on);
      case DrawImage(img, width, height, x, y, offset) => LitBlit(units, cells, img, width, height, x, y, offset);
      case DrawText(text, x, y, font, gutter) => LitTypeset(units, cells, CString(text, 0), font, x, y, gutter);
      case Clear => LitDark(units);
      case ClearAll => LitDark(units);
      case Transition(mode) => TransitDraws(units, f, mode);
      case _ =>
    }
  }
}
