/** Any client of the display: whatever calls it makes, in whatever order, what the
    chips show in the end is what the calls meant. */
module Client {
  import opened Panel
  import opened Protocol
  import opened Paint
  import opened Geometry
  import opened Picture
  import opened Lettering
  import opened CStrings
  import opened Canvas
  import opened Gpio
  import Driver = HT1632

  /** The lit LEDs of a chip are the bits of its words. */
  lemma GlowsByWord(units: nat, b: Board, color: nat, x: nat, y: nat)
    requires |b.chips| == 4 * units && color < 2 && x < 32 * units && y < 16
    ensures Addr(x, y) / 32 < |b.chips|
    ensures Glows(b, color, x, y) <==> LedsOn(b.chips[Addr(x, y) / 32].config) && On(Word(b, color, Addr(x, y)), y % 4)
  {
    hide Addr, ColOf, RowOf, LedsOn;
    CellOfPixel(units, x, y);
    ChipAndWord(x, y);
  }

  lemma LowNibble(cell: bv8, k: nat)
    requires k < 4
    ensures On(cell & 0xF, k) == On(cell, k)
  {
  }

  /** When the chips show the cells of a colour, its LEDs glow where the cells' picture is
      lit, if the chips are on, and nowhere if they are blank. */
  lemma ShownGlows(units: nat, b: Board, color: nat, cells: seq<bv8>, pwm: int, lit: bool, x: nat, y: nat)
    requires |b.chips| == 4 * units && color < 2 && |cells| == 128 * units && x < 32 * units && y < 16
    requires Shown(b, color, cells) && Tuned(b, pwm, lit)
    ensures Glows(b, color, x, y) <==> lit && (x, y) in Lit(units, cells)
  {
    hide Glows, Addr, Word, On, LedsOn, Tuned, ColOf, RowOf;
    CellOfPixel(units, x, y);
    GlowsByWord(units, b, color, x, y);
    TunedLeds(b, pwm, lit);
    LowNibble(cells[Addr(x, y)], y % 4);
    assert (x, y) in Lit(units, cells) <==> Lights(units, cells, x, y);
  }

  /** One call. Dirty tracking and everything else in Valid survive it, and the buffers
      change as the call is specified to change them. */
  method Perform(d: Driver.HT1632, call: Call)
    requires d.Valid() && call.Admissible()
    modifies d.Repr()
    ensures d.Valid() && d.Repr() == old(d.Repr())
    ensures d.State() == Operate(d.units, old(d.State()), call)
  {
    if call.Transition? {
      d.Transition(call.mode);
    } else if call.SetBrightness? || call.Blank? || call.Reinit? || call.Render? || call.RenderAll? {
      PerformOnPanel(d, call);
    } else {
      PerformOnBuffers(d, call);
    }
  }

  method PerformOnBuffers(d: Driver.HT1632, call: Call)
    requires d.Valid() && call.Admissible()
    requires call.DrawTarget? || call.SetPixel? || call.DrawImage? || call.DrawText? || call.Clear? || call.ClearAll?
    modifies d.Repr()
    ensures d.Valid() && d.mem == old(d.mem)
    ensures d.State() == Operate(d.units, old(d.State()), call)
  {
    hide Consistent, Settled;
    match call {
      case DrawTarget(board) => d.DrawTarget(board);
      case SetPixel(x, y, on) => PerformSetPixel(d, x, y, on);
      case DrawImage(img, width, height, x, y, offset) => PerformDrawImage(d, img, width, height, x, y, offset);
      case DrawText(text, x, y, font, gutter) => PerformDrawText(d, text, x, y, font, gutter);
      case Clear => d.ClearTarget();
      case ClearAll => d.ClearAll();
    }
  }

  method PerformOnPanel(d: Driver.HT1632, call: Call)
    requires d.Valid()
    requires call.SetBrightness? || call.Blank? || call.Reinit? || call.Render? || call.RenderAll?
    modifies d.Repr()
    ensures d.Valid() && d.Repr() == old(d.Repr())
    ensures d.State() == Operate(d.units, old(d.State()), call)
  {
    hide Consistent, Settled;
    match call {
      case SetBrightness(level) => d.SetBrightness(level);
      case Blank => d.Blank();
      case Reinit => d.Reinit();
      case Render => d.Render();
      case RenderAll => d.RenderAll();
    }
  }

  method PerformSetPixel(d: Driver.HT1632, x: int, y: int, on: bool)
    requires d.Valid()
    modifies d.mem[d.target]
    ensures d.Valid() && d.State() == Operate(d.units, old(d.State()), SetPixel(x, y, on))
  {
    ghost var cells := d.AllCells();
    d.SetPixel(x, y, on);
    d.OneRedrawn(cells);
    FlaggedPlot(d.units, cells[d.target], x, y, on);
    RedrawnConsistent(d.gpio.board, d.brightness, cells, d.globalDirty, d.target, d.Cells(d.target), false);
  }

  method PerformDrawImage(d: Driver.HT1632, img: seq<bv8>, width: int, height: int, x: int, y: int, offset: int)
    requires d.Valid() && DrawImage(img, width, height, x, y, offset).Admissible()
    modifies d.mem[d.target]
    ensures d.Valid() && d.State() == Operate(d.units, old(d.State()), DrawImage(img, width, height, x, y, offset))
  {
    ghost var cells := d.AllCells();
    d.DrawImage(img, width, height, x, y, offset);
    d.OneRedrawn(cells);
    FlaggedBlit(d.units, cells[d.target], img, width, height, x, y, offset);
    RedrawnConsistent(d.gpio.board, d.brightness, cells, d.globalDirty, d.target, d.Cells(d.target), false);
  }

  method PerformDrawText(d: Driver.HT1632, text: seq<nat>, x: int, y: int, font: Font, gutter: nat)
    requires d.Valid() && DrawText(text, x, y, font, gutter).Admissible()
    modifies d.mem[d.target]
    ensures d.Valid() && d.State() == Operate(d.units, old(d.State()), DrawText(text, x, y, font, gutter))
  {
    ghost var cells := d.AllCells();
    d.DrawText(text, x, y, font, gutter);
    d.OneRedrawn(cells);
    FlaggedTypeset(d.units, cells[d.target], CString(text, 0), font, x, y, gutter);
    RedrawnConsistent(d.gpio.board, d.brightness, cells, d.globalDirty, d.target, d.Cells(d.target), false);
  }

  /** Any sequence of calls draws the pictures that the calls mean, one after the other. */
  method PerformAll(d: Driver.HT1632, calls: seq<Call>)
    requires d.Valid() && forall k :: 0 <= k < |calls| ==> calls[k].Admissible()
    modifies d.Repr()
    ensures d.Valid() && d.Repr() == old(d.Repr())
    ensures View(d.units, d.State()) == DrawAll(d.units, View(d.units, old(d.State())), calls)
  {
    hide Operate, Draw, View, Consistent, Settled;
    ghost var start := View(d.units, d.State());
    for i := 0 to |calls|
      invariant d.Valid() && d.Repr() == old(d.Repr())
      invariant View(d.units, d.State()) == DrawAll(d.units, start, calls[..i])
    {
      ghost var before := d.State();
      Perform(d, calls[i]);
      OperateDraws(d.units, before, calls[i]);
      assert calls[..i + 1][..i] == calls[..i];
    }
    assert calls[..|calls|] == calls;
  }

  /** RenderAll puts the pictures in the buffers before the eye. */
  method ShowAll(d: Driver.HT1632)
    requires d.Valid()
    modifies d.Repr()
    ensures d.Valid() && d.State() == old(d.State())
    ensures forall color: nat, x: nat, y: nat | color < 2 && x < 32 * d.units && y < 16 ::
              Glows(d.gpio.board, color, x, y) <==> d.State().lit && (x, y) in Lit(d.units, d.State().cells[color])
    ensures forall k :: 0 <= k < |d.gpio.board.chips| ==>
              && d.gpio.board.chips[k].config.pwm == d.brightness
              && (LedsOn(d.gpio.board.chips[k].config) <==> d.State().lit)
  {
    hide Glows, Lit, Shown, Settled;
    d.RenderAll();
    ghost var b, cells, lit := d.gpio.board, d.AllCells(), d.State().lit;
    forall color: nat, x: nat, y: nat | color < 2 && x < 32 * d.units && y < 16
      ensures Glows(b, color, x, y) <==> lit && (x, y) in Lit(d.units, cells[color])
    {
      ShownGlows(d.units, b, color, cells[color], d.brightness, lit, x, y);
    }
    ChipsLit(b, d.brightness, cells, d.globalDirty);
  }

  /** Any calls after Begin, then RenderAll: the LED of each colour at each pixel is lit
      exactly if the chips are not blanked and the pixel is in the picture that the calls
      drew; every chip is on, unless blanked, at the brightness they set; no chip is left
      selected; and at every WR edge on the way exactly one chip was listening. */
  method EndToEnd(d: Driver.HT1632, pinCS: int, pinWR: int, pinDATA: int, pinCLK: int, calls: seq<Call>)
    requires d.units > 0 && d.gpio.Wired() && d.gpio.board.Sized(4 * d.units) && !d.gpio.strayed
    requires d.gpio.wiring == Wiring(pinCS, pinWR, pinDATA, pinCLK)
    requires 1 <= d.brightness <= 16
    requires forall k :: 0 <= k < |calls| ==> calls[k].Admissible()
    modifies d, d.gpio
    ensures d.Valid() && !d.gpio.strayed && forall k :: 0 <= k < |d.gpio.board.chain| ==> d.gpio.board.chain[k]
    ensures var drawn := DrawAll(d.units, Pictures(0, old(d.brightness), true, [{}, {}, {}]), calls);
            && (forall color: nat, x: nat, y: nat | color < 2 && x < 32 * d.units && y < 16 ::
                  Glows(d.gpio.board, color, x, y) <==> drawn.lit && (x, y) in drawn.pics[color])
            && (forall k :: 0 <= k < |d.gpio.board.chips| ==>
                  && d.gpio.board.chips[k].config.pwm == drawn.brightness
                  && (LedsOn(d.gpio.board.chips[k].config) <==> drawn.lit))
  {
    hide Draw, Glows, LedsOn, Lit, Settled, Shown;
    d.Begin(pinCS, pinWR, pinDATA, pinCLK);
    LitDark(d.units);
    PerformAll(d, calls);
    ShowAll(d);
  }
}
