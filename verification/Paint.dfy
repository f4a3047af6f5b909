/** How far a rendering has come: which words of the chips carry cells already, and
    what the open write session will do with the next word. */
module Paint {
  import opened Panel
  import opened Protocol
  import opened Geometry
  import opened Picture
  import opened Lettering

  /** The word of RAM that shows cell `a` of a colour board: each colour has its own
      32 words in every chip. */
  function Word(b: Board, color: nat, a: nat): bv8
    requires color < 2 && a / 32 < |b.chips|
  {
    b.chips[a / 32].ram[32 * color + a % 32]
  }

  /** Word w of chip k + 1 once the first i cells of `cells` are out. */
  function PaintedWord(old_: bv8, cells: seq<bv8>, color: nat, i: nat, k: nat, w: nat): bv8
    requires i <= |cells|
  {
    if 32 * color <= w < 32 * color + 32 && 32 * k + w - 32 * color < i
    then cells[32 * k + w - 32 * color] & 0xF
    else old_
  }

  /** Since `b0`, the first i cells have reached the colour's words; no other word and
      no configuration has changed. */
  ghost predicate Painted(b0: Board, b: Board, cells: seq<bv8>, color: nat, i: nat) {
    && color < 2 && |b.chips| == |b0.chips| && |cells| == 32 * |b.chips| && i <= |cells|
    && (forall k :: 0 <= k < |b.chips| ==> b.chips[k].config == b0.chips[k].config)
    && (forall k, w :: 0 <= k < |b.chips| && 0 <= w < RAM_WORDS ==>
          b.chips[k].ram[w] == PaintedWord(b0.chips[k].ram[w], cells, color, i, k, w))
  }

  /** The write session before cell i: none, or one on chip `open` alone whose
      auto-incremented address is the address after cell i - 1. */
  ghost predicate Streaming(b: Board, color: nat, i: nat, open: int) {
    if open == -1 then NoneSelected(b) && AllReset(b.chips)
    else
      && 1 <= open <= |b.chips| && Only(b, open - 1)
      && 32 * (open - 1) < i <= 32 * open
      && b.chips[open - 1].session == Words(i - 32 * (open - 1) + 32 * color, [])
  }

  lemma PaintedNothing(b: Board, cells: seq<bv8>, color: nat)
    requires color < 2 && |cells| == 32 * |b.chips|
    ensures Painted(b, b, cells, color, 0)
  {
  }

  lemma PaintedReset(b0: Board, b: Board, after: Board, cells: seq<bv8>, color: nat, i: nat)
    requires Painted(b0, b, cells, color, i) && after.chips == ResetAll(b.chips)
    ensures Painted(b0, after, cells, color, i) && AllReset(after.chips)
  {
  }

  /** A fresh session on a reset chip: ID 101, then an address. */
  lemma Addressed(b: Board, b1: Board, b2: Board, k: nat, a: nat, id: nat, len: nat, addrLen: nat)
    requires k < |b.chips| && b.chips[k].session == START && a < RAM_WORDS
    requires id == 5 && len == 3 && addrLen == 7
    requires Heard(b, b1, k, Msb(id, len)) && Heard(b1, b2, k, Msb(a, addrLen))
    ensures Became(b, b2, k, b.chips[k].(session := Words(a, [])))
  {
    hide ReceiveAll, Msb;
    IdBits(id, len);
    HeaderBits(b.chips[k], Msb(id, len));
    assert b1.chips[k] == b.chips[k].(session := Address([]));
    AddressBits(b1.chips[k], a, addrLen);
  }

  lemma Opened(b0: Board, b: Board, after: Board, cells: seq<bv8>, color: nat, i: nat, k: nat, r: nat)
    requires Painted(b0, b, cells, color, i)
    requires i == 32 * k + r && r < 32 && k < |b.chips| && Only(b, k)
    requires Became(b, after, k, b.chips[k].(session := Words(r + 32 * color, [])))
    ensures Painted(b0, after, cells, color, i) && Only(after, k)
  {
  }

  lemma WordHeard(b: Board, after: Board, k: nat, a: nat, cell: bv8)
    requires k < |b.chips| && b.chips[k].session == Words(a, []) && a + 1 < RAM_WORDS
    requires Heard(b, after, k, Lsb4(cell))
    ensures Became(b, after, k, b.chips[k].(ram := b.chips[k].ram[a := cell & 0xF], session := Words(a + 1, [])))
  {
    WordBits(b.chips[k], cell);
  }

  /** Four data bits in the open session put cell i where it belongs. */
  lemma Wrote(b0: Board, b: Board, after: Board, cells: seq<bv8>, color: nat, i: nat, k: nat, r: nat)
    requires Painted(b0, b, cells, color, i) && i < |cells|
    requires i == 32 * k + r && r < 32 && Only(b, k)
    requires Became(b, after, k, b.chips[k].(ram := b.chips[k].ram[r + 32 * color := cells[i] & 0xF],
                                             session := Words(r + 32 * color + 1, [])))
    ensures Painted(b0, after, cells, color, i + 1)
    ensures Streaming(after, color, i + 1, k + 1)
  {
    forall j, w | 0 <= j < |b.chips| && 0 <= w < RAM_WORDS
      ensures after.chips[j].ram[w] == PaintedWord(b0.chips[j].ram[w], cells, color, i + 1, j, w)
    {
      assert b.chips[j].ram[w] == PaintedWord(b0.chips[j].ram[w], cells, color, i, j, w);
      if j != k {
        assert after.chips[j] == b.chips[j];
      }
    }
    assert forall j :: 0 <= j < |b.chips| ==> after.chips[j].config == b.chips[j].config;
  }

  /** A cell that its word already shows may be left out. */
  lemma Skipped(b0: Board, b: Board, cells: seq<bv8>, color: nat, i: nat)
    requires Painted(b0, b, cells, color, i) && i < |cells|
    requires Word(b0, color, i) == cells[i] & 0xF
    ensures Painted(b0, b, cells, color, i + 1)
  {
    forall j, w | 0 <= j < |b.chips| && 0 <= w < RAM_WORDS
      ensures b.chips[j].ram[w] == PaintedWord(b0.chips[j].ram[w], cells, color, i + 1, j, w)
    {
      if 32 * color <= w < 32 * color + 32 && 32 * j + w - 32 * color == i {
        assert j == i / 32 && w == 32 * color + i % 32;
      }
    }
  }

  /** The two words, one of each colour, at the place of one cell. */
  lemma PaintedPair(b0: Board, b: Board, cells: seq<bv8>, color: nat, a: nat)
    requires Painted(b0, b, cells, color, |cells|) && a < |cells|
    ensures Word(b, color, a) == cells[a] & 0xF
    ensures forall c: nat | c < 2 && c != color :: Word(b, c, a) == Word(b0, c, a)
  {
    var k, r := a / 32, a % 32;
    var w, v := 32 * color + r, 32 * (1 - color) + r;
    assert b.chips[k].ram[w] == PaintedWord(b0.chips[k].ram[w], cells, color, |cells|, k, w);
    assert b.chips[k].ram[v] == PaintedWord(b0.chips[k].ram[v], cells, color, |cells|, k, v);
  }

  /** A finished rendering shows every cell, and leaves the other words alone. */
  lemma PaintedWords(b0: Board, b: Board, cells: seq<bv8>, color: nat)
    requires Painted(b0, b, cells, color, |cells|)
    ensures forall a :: 0 <= a < |cells| ==> Word(b, color, a) == cells[a] & 0xF
    ensures forall c: nat, a :: c < 2 && c != color && 0 <= a < |cells| ==> Word(b, c, a) == Word(b0, c, a)
  {
    hide Word, PaintedWord;
    forall a | 0 <= a < |cells|
      ensures Word(b, color, a) == cells[a] & 0xF
    {
      PaintedPair(b0, b, cells, color, a);
    }
    forall c: nat, a | c < 2 && c != color && 0 <= a < |cells|
      ensures Word(b, c, a) == Word(b0, c, a)
    {
      PaintedPair(b0, b, cells, color, a);
    }
  }

  // ---------------------------------------------------------------- configuration

  /** The configuration every chip is meant to have. */
  function Running(pwm: nat, lit: bool): Config {
    Config(true, lit, false, pwm, 0, RcMaster)
  }

  ghost predicate Tuned(b: Board, pwm: int, lit: bool) {
    pwm >= 0 && forall k :: 0 <= k < |b.chips| ==> b.chips[k].config == Running(pwm, lit)
  }

  /** Such chips light their LEDs, at the brightness asked for, unless they are blanked. */
  lemma TunedLeds(b: Board, pwm: int, lit: bool)
    requires Tuned(b, pwm, lit)
    ensures forall k :: 0 <= k < |b.chips| ==> b.chips[k].config.pwm == pwm && (LedsOn(b.chips[k].config) <==> lit)
  {
  }

  /** Chips 1 to m have obeyed `op` since `b0`; all RAM and all other configuration is kept. */
  ghost predicate Told(b0: Board, b: Board, m: nat, op: nat) {
    && |b.chips| == |b0.chips|
    && forall k :: 0 <= k < |b.chips| ==>
         Reset(b.chips[k]) == Reset(if k < m then Obeyed(b0.chips[k], op) else b0.chips[k])
  }

  lemma ToldOne(b0: Board, b: Board, b1: Board, b2: Board, m: nat, op: nat)
    requires m < |b.chips| && Told(b0, b, m, op) && b1.chips == ResetAll(b.chips)
    requires Became(b1, b2, m, Obeyed(b1.chips[m].(session := Commands([])), op))
    ensures Told(b0, b2, m + 1, op)
  {
  }

  lemma ToldReset(b0: Board, b: Board, after: Board, m: nat, op: nat)
    requires Told(b0, b, m, op) && after.chips == ResetAll(b.chips)
    ensures Told(b0, after, m, op) && AllReset(after.chips)
  {
  }

  /** An order to every chip changes what it orders and no word of any RAM. */
  lemma ToldAll(b0: Board, b: Board, op: nat, pwm: int, lit: bool)
    requires Told(b0, b, |b.chips|, op) && Tuned(b0, pwm, lit)
    ensures op == 0x02 ==> Tuned(b, pwm, false)
    ensures 0xA0 <= op < 0xB0 ==> Tuned(b, op - 0xA0 + 1, lit)
    ensures forall k :: 0 <= k < |b.chips| ==> b.chips[k].ram == b0.chips[k].ram
  {
  }

  // ---------------------------------------------------------------- dirty tracking


  /** On a board that is not marked as a whole, every cell without a rewrite bit is what
      its chip already shows. */
  ghost predicate InStep(b: Board, color: nat, cells: seq<bv8>, marked: bool)
    requires color < 2 && |cells| == 32 * |b.chips|
  {
    marked || forall a :: 0 <= a < |cells| ==> cells[a] & MASK_NEEDS_REWRITING != 0 || Word(b, color, a) == cells[a] & 0xF
  }

  /** Every cell of the board is what its chip shows. */
  ghost predicate Shown(b: Board, color: nat, cells: seq<bv8>)
    requires color < 2 && |cells| == 32 * |b.chips|
  {
    forall a :: 0 <= a < |cells| ==> Word(b, color, a) == cells[a] & 0xF
  }

  lemma RamKept(b: Board, after: Board, color: nat, cells: seq<bv8>, marked: bool)
    requires color < 2 && |cells| == 32 * |b.chips| && |after.chips| == |b.chips|
    requires forall k :: 0 <= k < |b.chips| ==> after.chips[k].ram == b.chips[k].ram
    ensures InStep(b, color, cells, marked) ==> InStep(after, color, cells, marked)
    ensures Shown(b, color, cells) ==> Shown(after, color, cells)
  {
  }

  /** Rendering one colour shows it and leaves the other colour as it was. */
  lemma PaintedShows(b0: Board, b: Board, color: nat, cells: seq<bv8>, others: seq<bv8>, marked: bool, pwm: int, lit: bool)
    requires Painted(b0, b, cells, color, |cells|) && |others| == |cells| && Tuned(b0, pwm, lit)
    ensures Shown(b, color, cells) && InStep(b, color, cells, false) && Tuned(b, pwm, lit)
    ensures InStep(b0, 1 - color, others, marked) ==> InStep(b, 1 - color, others, marked)
    ensures Shown(b0, 1 - color, others) ==> Shown(b, 1 - color, others)
  {
    hide Word, PaintedWord;
    PaintedWords(b0, b, cells, color);
    var other: nat := 1 - color;
    assert other != color;
  }

  // ---------------------------------------------------------------- between calls

  /** The panel and the driver's buffers as they are between calls: no chip selected,
      every chip running at the stored brightness, dirty tracking right on both colours. */
  ghost predicate Consistent(b: Board, pwm: int, cells: seq<seq<bv8>>, dirty: seq<bool>) {
    && |cells| == 3 && |dirty| == 3 && |b.chips| > 0
    && |cells[0]| == |cells[1]| == |cells[2]| == 32 * |b.chips|
    && NoneSelected(b) && AllReset(b.chips)
    && Tuned(b, pwm, b.chips[0].config.led)
    && InStep(b, 0, cells[0], dirty[0])
    && InStep(b, 1, cells[1], dirty[1])
  }

  /** So the chips all light their LEDs, or none does. */
  lemma ChipsLit(b: Board, pwm: int, cells: seq<seq<bv8>>, dirty: seq<bool>)
    requires Consistent(b, pwm, cells, dirty)
    ensures forall k :: 0 <= k < |b.chips| ==> b.chips[k].config.pwm == pwm && (LedsOn(b.chips[k].config) <==> b.chips[0].config.led)
  {
    hide InStep, NoneSelected, AllReset;
    TunedLeds(b, pwm, b.chips[0].config.led);
  }

  /** A rendering keeps all of it, shows its colour, and un-marks it. */
  lemma RenderedConsistent(b0: Board, b: Board, pwm: int, cells: seq<seq<bv8>>, dirty: seq<bool>, t: int)
    requires Consistent(b0, pwm, cells, dirty) && 0 <= t < 2
    requires Painted(b0, b, cells[t], t, |cells[t]|) && NoneSelected(b) && AllReset(b.chips)
    ensures Consistent(b, pwm, cells, dirty[t := false])
    ensures b.chips[0].config.led == b0.chips[0].config.led
    ensures Shown(b, t, cells[t])
    ensures Shown(b0, 1 - t, cells[1 - t]) ==> Shown(b, 1 - t, cells[1 - t])
  {
    PaintedShows(b0, b, t, cells[t], cells[1 - t], dirty[1 - t], pwm, b0.chips[0].config.led);
  }

  /** An order to every chip keeps the RAM, and with it what is shown. */
  lemma ToldConsistent(b0: Board, b: Board, pwm: int, cells: seq<seq<bv8>>, dirty: seq<bool>, op: nat)
    requires Consistent(b0, pwm, cells, dirty)
    requires Told(b0, b, |b.chips|, op) && NoneSelected(b) && AllReset(b.chips)
    ensures op == 0x02 ==> Consistent(b, pwm, cells, dirty) && !b.chips[0].config.led
    ensures 0xA0 <= op < 0xB0 ==> Consistent(b, op - 0xA0 + 1, cells, dirty) && b.chips[0].config.led == b0.chips[0].config.led
    ensures forall c :: 0 <= c < 2 && Shown(b0, c, cells[c]) ==> Shown(b, c, cells[c])
  {
    ToldAll(b0, b, op, pwm, b0.chips[0].config.led);
    RamKept(b0, b, 0, cells[0], dirty[0]);
    RamKept(b0, b, 1, cells[1], dirty[1]);
  }

  /** After an initialisation everything is marked, so nothing can be out of step. */
  lemma MarkedConsistent(b: Board, pwm: int, cells: seq<seq<bv8>>, dirty: seq<bool>)
    requires |cells| == 3 && dirty == [true, true, true] && |b.chips| > 0
    requires |cells[0]| == |cells[1]| == |cells[2]| == 32 * |b.chips|
    requires NoneSelected(b) && AllReset(b.chips) && Tuned(b, pwm, true)
    ensures Consistent(b, pwm, cells, dirty) && b.chips[0].config.led
  {
  }

  /** Drawing keeps it, as long as every changed cell carries its rewrite bit or its
      board is marked as a whole. */
  lemma DrawnConsistent(b: Board, pwm: int, cells: seq<seq<bv8>>, dirty: seq<bool>, cells': seq<seq<bv8>>, dirty': seq<bool>)
    requires Consistent(b, pwm, cells, dirty)
    requires |cells'| == 3 && |dirty'| == 3 && |cells'[0]| == |cells'[1]| == |cells'[2]| == 32 * |b.chips|
    requires forall c :: 0 <= c < 2 ==> dirty'[c] || (dirty'[c] == dirty[c] && Flagged(cells[c], cells'[c]))
    ensures Consistent(b, pwm, cells', dirty')
  {
    forall c | 0 <= c < 2
      ensures InStep(b, c, cells'[c], dirty'[c])
    {
      if !dirty'[c] {
        assert InStep(b, c, cells[c], dirty[c]);
        assert Flagged(cells[c], cells'[c]);
      }
    }
  }

  /** Every changed cell carries its rewrite bit. */
  ghost predicate Flagged(cells: seq<bv8>, cells': seq<bv8>) {
    && |cells'| == |cells|
    && forall a :: 0 <= a < |cells| ==> cells'[a] == cells[a] || cells'[a] & MASK_NEEDS_REWRITING != 0
  }

  lemma FlaggedPlot(units: nat, cells: seq<bv8>, x: int, y: int, on: bool)
    requires |cells| == 128 * units
    ensures Flagged(cells, Plot(units, cells, x, y, on))
  {
    if OnScreen(units, x, y) {
      CellOfPixel(units, x, y);
      FlagSurvives(if on then cells[Addr(x, y)] | BitMask(y % 4) else cells[Addr(x, y)] & !BitMask(y % 4));
    }
  }

  lemma FlagSurvives(v: bv8)
    ensures (v | MASK_NEEDS_REWRITING) & MASK_NEEDS_REWRITING != 0
  {
  }

  lemma ColumnCellFlags(img: seq<bv8>, base: int, height: int, y: int, q: int, cell: bv8)
    requires height > 0 ==> 0 <= base && base + Stride(height) <= |img|
    ensures var r := ColumnCell(img, base, height, y, q, cell); r == cell || r & MASK_NEEDS_REWRITING != 0
  {
  }

  lemma FlaggedBlit(units: nat, cells: seq<bv8>, img: seq<bv8>, width: int, height: int, x: int, y: int, offset: int)
    requires |cells| == 128 * units && Fits(img, width, height, offset)
    ensures Flagged(cells, Blit(units, cells, img, width, height, x, y, offset))
  {
    forall a | 0 <= a < |cells|
      ensures var r := Blit(units, cells, img, width, height, x, y, offset)[a]; r == cells[a] || r & MASK_NEEDS_REWRITING != 0
    {
      var i := ColOf(a) - x;
      if 0 <= i < width {
        ColumnFits(img, width, height, offset, i);
        ColumnCellFlags(img, Base(height, offset, i), height, y, RowOf(a), cells[a]);
      }
    }
  }

  lemma FlaggedTrans(a: seq<bv8>, b: seq<bv8>, c: seq<bv8>)
    requires Flagged(a, b) && Flagged(b, c)
    ensures Flagged(a, c)
  {
  }

  lemma {:induction false} FlaggedGutter(units: nat, cells: seq<bv8>, font: Font, x: int, y: int, count: nat)
    requires |cells| == 128 * units && font.Complete()
    ensures Flagged(cells, Gutter(units, cells, font, x, y, count))
  {
    if count > 0 {
      FlaggedGutter(units, cells, font, x, y, count - 1);
      var before := Gutter(units, cells, font, x, y, count - 1);
      FlaggedBlit(units, before, font.data, 1, font.height, x + count - 1, y, 0);
      FlaggedTrans(cells, before, Gutter(units, cells, font, x, y, count));
    }
  }

  lemma {:induction false} FlaggedTypeset(units: nat, cells: seq<bv8>, text: seq<nat>, font: Font, x: int, y: int, gutter: nat)
    requires |cells| == 128 * units && font.Complete()
    ensures Flagged(cells, Typeset(units, cells, text, font, x, y, gutter))
    decreases text
  {
    if text != [] {
      var g := GlyphOf(text[0]);
      if g == -1 {
        FlaggedTypeset(units, cells, text[1..], font, x, y, gutter);
      } else {
        var glyph := Blit(units, cells, font.data, font.widths[g], font.height, x, y, g * font.step);
        var letter := Letter(units, cells, font, g, x, y, gutter);
        FlaggedBlit(units, cells, font.data, font.widths[g], font.height, x, y, g * font.step);
        FlaggedGutter(units, glyph, font, x + font.widths[g], y, gutter);
        FlaggedTrans(cells, glyph, letter);
        FlaggedTypeset(units, letter, text[1..], font, x + font.widths[g] + gutter, y, gutter);
        FlaggedTrans(cells, letter, Typeset(units, cells, text, font, x, y, gutter));
      }
    }
  }

  /** One buffer redrawn in the sense of Flagged, or marked as a whole. */
  lemma RedrawnConsistent(b: Board, pwm: int, cells: seq<seq<bv8>>, dirty: seq<bool>, t: int, drawn: seq<bv8>, marked: bool)
    requires Consistent(b, pwm, cells, dirty) && 0 <= t < 3 && |drawn| == |cells[t]|
    requires marked || Flagged(cells[t], drawn)
    ensures Consistent(b, pwm, cells[t := drawn], dirty[t := marked || dirty[t]])
  {
  }

  /** The secondary buffer is never rendered, so it may become anything. */
  lemma SecondaryFree(b: Board, pwm: int, cells: seq<seq<bv8>>, dirty: seq<bool>, drawn: seq<bv8>)
    requires Consistent(b, pwm, cells, dirty) && |drawn| == |cells[2]|
    ensures Consistent(b, pwm, cells[2 := drawn], dirty)
  {
  }
}
