/** The display driver: three cell buffers, dirty tracking, and the edges that
    carry the buffers to the chips. */
module HT1632 {
  import opened Panel
  import opened Protocol
  import opened Gpio
  import opened Paint
  import opened Geometry
  import opened Picture
  import opened Lettering
  import opened CStrings
  import opened Canvas

  const ID_CMD: nat := 4
  const ID_WR: nat := 5
  const ID_LEN: nat := 3
  const CMD_SYSDIS: nat := 0x00
  const CMD_SYSEN: nat := 0x01
  const CMD_LEDOFF: nat := 0x02
  const CMD_LEDON: nat := 0x03
  const CMD_BLOFF: nat := 0x08
  const CMD_RCCLK: nat := 0x18
  const CMD_COMS00: nat := 0x20
  const CMD_PWM_T: nat := 0xA0
  const CMD_LEN: nat := 8
  const ADDR_LEN: nat := 7
  const MAX_BOARDS: int := 3
  const BUFFER_SECONDARY: int := 2

  class HT1632 {
    const gpio: Device
    const units: nat          // NUM_OF_BICOLOR_UNITS

    var brightness: int
    var pinCS: int
    var pinWR: int
    var pinDATA: int
    var pinCLK: int
    var burstReady: bool
    var maskCS: bv32
    var maskWR: bv32
    var maskDATA: bv32
    var maskCLK: bv32
    var target: int                   // _tgtBuffer
    var globalDirty: seq<bool>        // _globalNeedsRewriting
    var mem: seq<array<bv8>>          // two colour boards and the secondary buffer

    /** Nothing is allocated and no target is chosen until Begin. */
    constructor (gpio: Device, units: nat)
      ensures this.gpio == gpio && this.units == units
      ensures brightness == 16 && target == -1 && mem == [] && globalDirty == [false, false, false] && !burstReady
    {
      this.gpio, this.units, brightness, target := gpio, units, 16, -1;
      pinCS, pinWR, pinDATA, pinCLK := 0, 0, 0, 0;
      burstReady, maskCS, maskWR, maskDATA, maskCLK := false, 0, 0, 0, 0;
      globalDirty, mem := [false, false, false], [];
    }

    function Chips(): nat { 4 * units }

    function Size(): nat { 128 * units }

    /** The pins given to Begin are the soldered ones, and the masks name them. */
    ghost predicate Plugged()
      reads this, gpio
    {
      && units > 0
      && gpio.Wired()
      && gpio.wiring == Wiring(pinCS, pinWR, pinDATA, pinCLK)
      && (burstReady ==>
            && SupportsOffset(pinCS) && maskCS == MaskForOffset(pinCS)
            && SupportsOffset(pinWR) && maskWR == MaskForOffset(pinWR)
            && SupportsOffset(pinDATA) && maskDATA == MaskForOffset(pinDATA)
            && SupportsOffset(pinCLK) && maskCLK == MaskForOffset(pinCLK))
      && gpio.board.Sized(Chips())
    }

    ghost predicate Ready()
      reads this, gpio
    {
      Plugged() && Settled(gpio.board) && !gpio.strayed
    }

    // -------------------------------------------------------------- pins

    method PinWrite(ghost line: Line, pin: int, mask: bv32, value: bool)
      requires Plugged()
      requires pin == gpio.wiring.Pin(line)
      requires burstReady ==> SupportsOffset(pin) && mask == MaskForOffset(pin)
      modifies gpio
      ensures Plugged()
      ensures gpio.board == Drive(old(gpio.board), line, value)
      ensures (exists k :: Only(old(gpio.board), k)) || line != WR || !value ==> gpio.strayed == old(gpio.strayed)
    {
      hide MaskForOffset, Pins, BitOf, Shift, Strobe;
      OneWire(gpio.high, gpio.wiring, line, value);
      if burstReady {
        MaskNamesOnePin(pin);
        gpio.BurstWrite(mask, value);
      } else {
        gpio.Write(pin, value);
      }
    }

    /** DATA, then WR high, then WR low: the step that every write below repeats. */
    method ClockBit(bit: bool, ghost k: nat)
      requires Ready() && Only(gpio.board, k)
      modifies gpio
      ensures Ready() && Heard(old(gpio.board), gpio.board, k, [bit])
    {
      ClockedBit(gpio.board, k, bit);
      PinWrite(DATA, pinDATA, maskDATA, bit);
      assert Only(gpio.board, k);
      PinWrite(WR, pinWR, maskWR, true);
      PinWrite(WR, pinWR, maskWR, false);
    }

    method WriteData(data: nat, len: nat, ghost k: nat)
      requires Ready() && Only(gpio.board, k)
      modifies gpio
      ensures Ready() && Heard(old(gpio.board), gpio.board, k, Msb(data, len))
    {
      ghost var b0, bits := gpio.board, Msb(data, len);
      HeardNothing(b0, k);
      var j, t := len, Pow2(len);
      while j > 0
        invariant 0 <= j <= len && t == Pow2(j)
        invariant Ready() && Heard(b0, gpio.board, k, bits[..len - j])
      {
        j, t := j - 1, t / 2;
        BitAt(data, len, len - 1 - j);
        ghost var b1 := gpio.board;
        ClockBit(TestBit(data, t), k);
        HeardPrefix(b0, b1, gpio.board, k, bits, len - 1 - j);
      }
      assert bits[..len] == bits;
    }

    method WriteDataRev(cell: bv8, ghost k: nat)
      requires Ready() && Only(gpio.board, k)
      modifies gpio
      ensures Ready() && Heard(old(gpio.board), gpio.board, k, Lsb4(cell))
    {
      ghost var b0, bits := gpio.board, Lsb4(cell);
      HeardNothing(b0, k);
      ShiftedBits(cell);
      var data := cell;
      for j := 0 to 4
        invariant Ready() && Heard(b0, gpio.board, k, bits[..j])
        invariant data == Shifted(cell, j)
      {
        ghost var b1 := gpio.board;
        ClockBit(data & 1 != 0, k);
        HeardPrefix(b0, b1, gpio.board, k, bits, j);
        data := data >> 1;
      }
      assert bits[..4] == bits;
    }

    method WriteSingleBit(ghost k: nat)
      requires Ready() && Only(gpio.board, k)
      modifies gpio
      ensures Ready() && Heard(old(gpio.board), gpio.board, k, [false])
    {
      ClockBit(false, k);
    }

    /** One command to chip k + 1, which has turned into `chip` since `b0`. */
    method WriteCommand(op: nat, ghost k: nat, ghost b0: Board, ghost chip: Chip)
      requires op < 256
      requires Ready() && Only(gpio.board, k)
      requires Became(b0, gpio.board, k, chip) && chip.session == Commands([])
      modifies gpio
      ensures Ready() && Became(b0, gpio.board, k, Obeyed(chip, op))
    {
      ghost var b1 := gpio.board;
      WriteData(op, CMD_LEN, k);
      ghost var b2 := gpio.board;
      WriteSingleBit(k);
      HeardMore(b1, b2, gpio.board, k, Msb(op, CMD_LEN), [false]);
      BecameObedient(b0, b1, gpio.board, k, chip, op, CMD_LEN);
    }

    // -------------------------------------------------------------- selection

    method OutputClkPulse()
      requires Ready()
      modifies gpio
      ensures Ready() && PulsedBy(old(gpio.board), gpio.board)
    {
      Pulsed(gpio.board);
      PinWrite(CLK, pinCLK, maskCLK, true);
      PinWrite(CLK, pinCLK, maskCLK, false);
    }

    /** Chooses chip n, no chip for 0 or past the last, or every chip for a negative n. */
    method Select(n: int)
      requires Ready()
      modifies gpio
      ensures Ready()
      ensures n == 0 || n > Chips() ==> NoneSelected(gpio.board)
      ensures 0 < n <= Chips() ==> Only(gpio.board, n - 1)
      ensures n >= 0 ==> gpio.board.chips == ResetAll(old(gpio.board.chips))
      ensures n < 0 ==> Flushed(old(gpio.board), gpio.board, Chips(), false)
    {
      ghost var b0 := gpio.board;
      var cs := n >= 0;
      PinWrite(CS, pinCS, maskCS, cs);
      for t := 0 to Chips()
        invariant Ready() && Flushed(b0, gpio.board, t, cs)
      {
        ghost var b := gpio.board;
        OutputClkPulse();
        FlushedMore(b0, b, gpio.board, t, cs);
      }
      if cs {
        FlushedAll(b0, gpio.board);
      }
      if n > 0 {
        PassLow(n, b0);
      }
    }

    /** One low level, clocked into a chain that is all high and up to chip n. */
    method PassLow(n: nat, ghost b0: Board)
      requires Ready() && n > 0 && NoneSelected(gpio.board) && gpio.board.chips == ResetAll(b0.chips)
      modifies gpio
      ensures Ready() && Passed(b0, gpio.board, n - 1)
    {
      ghost var b1 := gpio.board;
      PinWrite(CS, pinCS, maskCS, false);
      ghost var b2 := gpio.board;
      OutputClkPulse();
      ghost var b3 := gpio.board;
      PinWrite(CS, pinCS, maskCS, true);
      ReachedFirst(b0, b1, b2, b3, gpio.board);
      for t := 1 to n
        invariant Ready() && Passed(b0, gpio.board, t - 1)
      {
        ghost var b := gpio.board;
        OutputClkPulse();
        PassedNext(b0, b, gpio.board, t - 1);
      }
    }

    // -------------------------------------------------------------- configuration

    /** Chips 1 to m are configured and reset; the rest have kept RAM and configuration. */
    ghost predicate ConfiguredUpTo(b0: Board, b: Board, m: nat, pwm: int) {
      && |b0.chips| == |b.chips|
      && 1 <= pwm <= 16
      && forall k :: 0 <= k < |b.chips| ==>
           b.chips[k] == Chip(b0.chips[k].ram, if k < m then Running(pwm, true) else b0.chips[k].config, START)
    }

    lemma NoneConfigured(b0: Board, b: Board, pwm: int)
      requires 1 <= pwm <= 16 && b.chips == ResetAll(b0.chips)
      ensures ConfiguredUpTo(b0, b, 0, pwm)
    {
    }

    lemma OneConfigured(b0: Board, b1: Board, b2: Board, b3: Board, b4: Board, m: nat, pwm: int)
      requires ConfiguredUpTo(b0, b1, m, pwm) && m < |b1.chips|
      requires b2.chips == ResetAll(b1.chips) && b4.chips == ResetAll(b3.chips)
      requires Became(b2, b3, m, b2.chips[m].(config := Running(pwm, true), session := Commands([])))
      ensures ConfiguredUpTo(b0, b4, m + 1, pwm)
    {
      hide Running;
    }

    lemma AllConfigured(b0: Board, b: Board, pwm: int)
      requires ConfiguredUpTo(b0, b, |b.chips|, pwm)
      ensures Tuned(b, pwm, true) && AllReset(b.chips)
    {
    }

    /** The eight writes that bring one selected chip up. */
    method ConfigureChip(ghost k: nat)
      requires Ready() && 1 <= brightness <= 16
      requires Only(gpio.board, k) && AllReset(gpio.board.chips)
      modifies gpio
      ensures Ready()
      ensures Became(old(gpio.board), gpio.board, k,
                     old(gpio.board.chips[k]).(config := Running(brightness, true), session := Commands([])))
      ensures LedsOn(gpio.board.chips[k].config) && gpio.board.chips[k].config.pwm == brightness
      ensures gpio.board.chips[k].config ==
              ExecuteAll(old(gpio.board.chips[k].config), [0x00, 0x20, 0x18, 0x01, 0x03, 0x9F + brightness, 0x08])
    {
      hide Execute, ExecuteAll, Running, LedsOn, Heard, Settled;
      ghost var b1 := gpio.board;
      WriteData(ID_CMD, ID_LEN, k);
      BecameCommanded(b1, gpio.board, k, ID_CMD, ID_LEN);
      ghost var c := b1.chips[k].(session := Commands([]));
      WriteCommand(CMD_SYSDIS, k, b1, c);
      c := Obeyed(c, CMD_SYSDIS);
      WriteCommand(CMD_COMS00, k, b1, c);
      c := Obeyed(c, CMD_COMS00);
      WriteCommand(CMD_RCCLK, k, b1, c);
      c := Obeyed(c, CMD_RCCLK);
      WriteCommand(CMD_SYSEN, k, b1, c);
      c := Obeyed(c, CMD_SYSEN);
      WriteCommand(CMD_LEDON, k, b1, c);
      c := Obeyed(c, CMD_LEDON);
      WriteCommand(CmdPwm(brightness), k, b1, c);
      c := Obeyed(c, CmdPwm(brightness));
      WriteCommand(CMD_BLOFF, k, b1, c);
      BroughtUp(b1.chips[k].(session := Commands([])), brightness);
      InThisOrder(b1.chips[k].config, CMD_SYSDIS, CMD_COMS00, CMD_RCCLK, CMD_SYSEN, CMD_LEDON,
                  CmdPwm(brightness), CMD_BLOFF);
    }

    /** The seven commands, whatever the configuration was. */
    lemma BroughtUp(chip: Chip, pwm: int)
      requires 1 <= pwm <= 16 && chip.session == Commands([])
      ensures Obeyed(Obeyed(Obeyed(Obeyed(Obeyed(Obeyed(Obeyed(chip, CMD_SYSDIS), CMD_COMS00), CMD_RCCLK), CMD_SYSEN),
                     CMD_LEDON), CmdPwm(pwm)), CMD_BLOFF) == chip.(config := Running(pwm, true))
      ensures LedsOn(Running(pwm, true)) && Running(pwm, true).pwm == pwm
    {
    }

    lemma InThisOrder(c: Config, a0: nat, a1: nat, a2: nat, a3: nat, a4: nat, a5: nat, a6: nat)
      ensures ExecuteAll(c, [a0, a1, a2, a3, a4, a5, a6]) ==
              Execute(Execute(Execute(Execute(Execute(Execute(Execute(c, a0), a1), a2), a3), a4), a5), a6)
    {
      hide Execute, ExecuteAll;
      var ops := [a0, a1, a2, a3, a4, a5, a6];
      NextInOrder(c, ops, 0);
      NextInOrder(c, ops, 1);
      NextInOrder(c, ops, 2);
      NextInOrder(c, ops, 3);
      NextInOrder(c, ops, 4);
      NextInOrder(c, ops, 5);
      NextInOrder(c, ops, 6);
      assert ops[..7] == ops;
    }

    lemma NextInOrder(c: Config, ops: seq<nat>, n: nat)
      requires n < |ops|
      ensures ExecuteAll(c, ops[..0]) == c
      ensures ExecuteAll(c, ops[..n + 1]) == Execute(ExecuteAll(c, ops[..n]), ops[n])
    {
      hide Execute;
      assert ops[..n + 1][..n] == ops[..n];
    }

    method InitializeChip(i: int, ghost b0: Board)
      requires Ready() && 1 <= brightness <= 16 && 1 <= i <= Chips()
      requires ConfiguredUpTo(b0, gpio.board, i - 1, brightness)
      modifies gpio
      ensures Ready() && NoneSelected(gpio.board)
      ensures ConfiguredUpTo(b0, gpio.board, i, brightness)
    {
      hide ConfiguredUpTo, Running, LedsOn;
      ghost var b1 := gpio.board;
      Select(i);
      ghost var b2 := gpio.board;
      ConfigureChip(i - 1);
      ghost var b3 := gpio.board;
      Select(0);
      OneConfigured(b0, b1, b2, b3, gpio.board, i - 1, brightness);
    }

    method Initialize()
      requires Ready() && 1 <= brightness <= 16
      modifies this`globalDirty, gpio
      ensures Ready() && NoneSelected(gpio.board)
      ensures ConfiguredUpTo(old(gpio.board), gpio.board, Chips(), brightness)
      ensures forall k :: 0 <= k < |gpio.board.chips| ==>
                LedsOn(gpio.board.chips[k].config) && gpio.board.chips[k].config.pwm == brightness
      ensures globalDirty == [true, true, true]
    {
      hide ConfiguredUpTo, LedsOn, Tuned;
      ghost var b0 := gpio.board;
      Select(0);
      NoneConfigured(b0, gpio.board, brightness);
      for i := 1 to Chips() + 1
        invariant Ready() && NoneSelected(gpio.board)
        invariant ConfiguredUpTo(b0, gpio.board, i - 1, brightness)
      {
        InitializeChip(i, b0);
      }
      globalDirty := [true, true, true];
      AllConfigured(b0, gpio.board, brightness);
      TunedLeds(gpio.board, brightness, true);
    }

    // -------------------------------------------------------------- buffers

    ghost predicate Buffers()
      reads this
    {
      && |mem| == 3 && |globalDirty| == 3
      && mem[0].Length == mem[1].Length == mem[2].Length == Size()
      && mem[0] != mem[1] && mem[0] != mem[2] && mem[1] != mem[2]
    }

    ghost function Repr(): set<object>
      reads this
      requires |mem| == 3
    {
      {this, gpio, mem[0], mem[1], mem[2]}
    }

    /** The cells of one buffer. */
    ghost function Cells(board: int): seq<bv8>
      requires |mem| == 3 && 0 <= board < 3
      reads this, mem[board]
    {
      mem[board][..]
    }

    /** What holds between calls, from Begin on: no chip is selected, every chip runs at
        the stored brightness, and dirty tracking is right for both colours. */
    ghost predicate Valid()
      reads this, gpio, if |mem| == 3 then {mem[0], mem[1], mem[2]} else {}
    {
      && Ready() && Buffers() && 0 <= target < 3 && 1 <= brightness <= 16
      && Consistent(gpio.board, brightness, AllCells(), globalDirty)
    }

    ghost function AllCells(): seq<seq<bv8>>
      requires |mem| == 3
      reads this, mem[0], mem[1], mem[2]
    {
      [Cells(0), Cells(1), Cells(2)]
    }

    /** Cells and settings, as values. */
    ghost function State(): Frame
      requires Buffers() && |gpio.board.chips| > 0
      reads this, gpio, mem[0], mem[1], mem[2]
    {
      Frame(target, brightness, gpio.board.chips[0].config.led, AllCells())
    }

    method Render()
      requires target < 0 || Valid()
      modifies this`globalDirty, gpio
      ensures target < 0 ==> unchanged(this) && unchanged(gpio)
      ensures 0 <= target ==> Valid() && State() == old(State())
      ensures 0 <= target < 2 ==> Shown(gpio.board, target, Cells(target)) && !globalDirty[target]
      ensures 0 <= target < 2 ==> Painted(old(gpio.board), gpio.board, Cells(target), target, Size())
      ensures 0 <= target < 2 && Shown(old(gpio.board), 1 - target, Cells(1 - target)) ==> Shown(gpio.board, 1 - target, Cells(1 - target))
      ensures !(0 <= target < 2) ==> gpio.board == old(gpio.board)
    {
      hide Painted, Shown, InStep, Tuned, NoneSelected, AllReset;
      if target >= BUFFER_SECONDARY || target < 0 {
        return;
      }
      ghost var b0 := gpio.board;
      RenderCells();
      RenderedConsistent(b0, gpio.board, brightness, AllCells(), globalDirty, target);
      globalDirty := globalDirty[target := false];
    }

    method RenderCells()
      requires Ready() && Buffers() && 0 <= target < 2
      requires InStep(gpio.board, target, Cells(target), globalDirty[target])
      modifies gpio
      ensures Ready() && NoneSelected(gpio.board) && AllReset(gpio.board.chips)
      ensures Painted(old(gpio.board), gpio.board, Cells(target), target, Size())
    {
      hide Painted, Word;
      ghost var b0, cells := gpio.board, mem[target][..];
      var open := -1;
      PaintedNothing(b0, cells, target);
      Select(0);
      PaintedReset(b0, b0, gpio.board, cells, target, 0);
      for i := 0 to Size()
        invariant Ready()
        invariant Painted(b0, gpio.board, cells, target, i)
        invariant Streaming(gpio.board, target, i, open)
      {
        open := RenderCell(i, open, b0, cells);
      }
      if open != -1 {
        CloseSession(Size(), b0, cells);
      }
    }

    /** One turn of the rendering loop: writes cell i, in a new session if the open one
        is not on its chip, or else leaves it out and closes the open session. */
    method RenderCell(i: nat, nChipOpen: int, ghost b0: Board, ghost cells: seq<bv8>) returns (open: int)
      requires Ready() && Buffers() && 0 <= target < 2 && i < Size()
      requires cells == Cells(target) && |b0.chips| == Chips()
      requires globalDirty[target] || mem[target][i] & MASK_NEEDS_REWRITING != 0 || Word(b0, target, i) == cells[i] & 0xF
      requires Painted(b0, gpio.board, cells, target, i) && Streaming(gpio.board, target, i, nChipOpen)
      modifies gpio
      ensures Ready()
      ensures Painted(b0, gpio.board, cells, target, i + 1) && Streaming(gpio.board, target, i + 1, open)
    {
      open := nChipOpen;
      if globalDirty[target] || mem[target][i] & MASK_NEEDS_REWRITING != 0 {
        var nChip := i / 32 + 1;
        if open != nChip {
          open := OpenSession(nChip, i, target * 32, b0, cells);
        }
        StreamWord(i, i / 32, i % 32, b0, cells);
      } else {
        Skipped(b0, gpio.board, cells, target, i);
        if open != -1 {
          CloseSession(i + 1, b0, cells);
          open := -1;
        }
      }
    }

    method StreamWord(i: nat, ghost k: nat, ghost r: nat, ghost b0: Board, ghost cells: seq<bv8>)
      requires Ready() && Buffers() && 0 <= target < 2 && i < Size()
      requires cells == Cells(target) && Painted(b0, gpio.board, cells, target, i)
      requires i == 32 * k + r && r < 32
      requires Only(gpio.board, k) && gpio.board.chips[k].session == Words(r + 32 * target, [])
      modifies gpio
      ensures Ready()
      ensures Painted(b0, gpio.board, cells, target, i + 1) && Streaming(gpio.board, target, i + 1, k + 1)
    {
      ghost var b1 := gpio.board;
      WriteDataRev(mem[target][i], k);
      WordHeard(b1, gpio.board, k, r + 32 * target, cells[i]);
      Wrote(b0, b1, gpio.board, cells, target, i, k, r);
    }

    method CloseSession(i: nat, ghost b0: Board, ghost cells: seq<bv8>)
      requires Ready() && 0 <= target < 2 && Painted(b0, gpio.board, cells, target, i)
      modifies gpio
      ensures Ready() && NoneSelected(gpio.board) && AllReset(gpio.board.chips)
      ensures Painted(b0, gpio.board, cells, target, i)
    {
      ghost var b1 := gpio.board;
      Select(0);
      PaintedReset(b0, b1, gpio.board, cells, target, i);
    }

    /** Selects a chip and sends the write ID and the address of cell i. */
    method OpenSession(nChip: int, i: nat, colorOffset: int, ghost b0: Board, ghost cells: seq<bv8>) returns (open: int)
      requires Ready() && 0 <= target < 2 && colorOffset == target * 32
      requires i < Size() && nChip == i / 32 + 1
      requires Painted(b0, gpio.board, cells, target, i)
      modifies gpio
      ensures Ready() && open == nChip
      ensures Only(gpio.board, i / 32) && Painted(b0, gpio.board, cells, target, i)
      ensures gpio.board.chips[i / 32].session == Words(i % 32 + colorOffset, [])
    {
      ghost var b1 := gpio.board;
      Select(nChip);
      PaintedReset(b0, b1, gpio.board, cells, target, i);
      ghost var b2 := gpio.board;
      WriteHeader(i % 32 + colorOffset, i / 32);
      Opened(b0, b2, gpio.board, cells, target, i, i / 32, i % 32);
      open := nChip;
    }

    method WriteHeader(address: nat, ghost k: nat)
      requires Ready() && Only(gpio.board, k) && gpio.board.chips[k].session == START && address < RAM_WORDS
      modifies gpio
      ensures Ready()
      ensures Became(old(gpio.board), gpio.board, k, old(gpio.board).chips[k].(session := Words(address, [])))
    {
      ghost var b := gpio.board;
      WriteData(ID_WR, ID_LEN, k);
      ghost var b1 := gpio.board;
      WriteData(address, ADDR_LEN, k);
      Addressed(b, b1, gpio.board, k, address, ID_WR, ID_LEN, ADDR_LEN);
    }

    // -------------------------------------------------------------- drawing

    /** If a target has been chosen, there is a buffer to draw on. Without one, drawing does
        nothing. */
    ghost predicate Drawable()
      reads this
    {
      0 <= target < 3 ==> Buffers()
    }

    ghost function Paper(): set<object>
      reads this
    {
      if 0 <= target < 3 && |mem| == 3 then {mem[target]} else {}
    }

    method DrawTarget(board: int)
      modifies this`target
      ensures target == if 0 <= board < 3 then board else old(target)
    {
      if board >= 0 && board < MAX_BOARDS {
        target := board;
      }
    }

    method SetPixel(x: int, y: int, datum: bool)
      requires Drawable()
      modifies Paper()
      ensures 0 <= target < 3 ==> Cells(target) == Plot(units, old(Cells(target)), x, y, datum)
    {
      if target > BUFFER_SECONDARY || target < 0 {
        return;
      }
      if x < 0 || x >= 32 * units || y < 0 || y >= COM_SIZE {
        return;
      }
      hide Addr, LitCell, UnlitCell, ColOf, RowOf;
      CellOfPixel(units, x, y);
      var a := Addr(x, y);
      var cell := mem[target][a];
      if datum {
        StoreCell(a, LitCell(cell, y % 4));
      } else {
        StoreCell(a, UnlitCell(cell, y % 4));
      }
    }

    method StoreCell(a: nat, cell: bv8)
      requires Buffers() && 0 <= target < 3 && a < Size()
      modifies mem[target]
      ensures Cells(target) == old(Cells(target))[a := cell]
    {
      mem[target][a] := cell;
    }

    method Clear()
      requires Drawable()
      modifies this`globalDirty, Paper()
      ensures Drawable()
      ensures if 0 <= target < 3 then globalDirty == old(globalDirty)[target := true] && Cells(target) == Dark(units)
              else globalDirty == old(globalDirty)
    {
      if target > BUFFER_SECONDARY || target < 0 {
        return;
      }
      forall a | 0 <= a < Size() {
        mem[target][a] := 0;
      }
      globalDirty := globalDirty[target := true];
    }

    /** The copying engine's loop over one column of the image. */
    method BlitColumn(img: seq<bv8>, base: int, height: int, locX: nat, y: int)
      requires Buffers() && 0 <= target < 3 && locX < 32 * units
      requires height > 0 ==> 0 <= base && base + Stride(height) <= |img|
      modifies mem[target]
      ensures ColumnBlitted(old(Cells(target)), Cells(target), img, base, height, locX, y)
    {
      ghost var before := Cells(target);
      var carryoverY: bv8 := 0;
      var carryoverValid := false;
      var j := 0;
      ColumnNotBegun(units, before, img, base, height, locX, y);
      while j < (if carryoverValid then height + 4 else height)
        invariant CarryState(img, base, height, y, j, carryoverValid, carryoverY)
        invariant ColumnDone(before, Cells(target), img, base, height, locX, y, j)
        decreases height + 8 - j
      {
        carryoverValid, carryoverY := BlitStep(img, base, height, locX, y, j, carryoverValid, carryoverY, before);
        j := j + 4;
      }
      ColumnFinished(units, before, Cells(target), img, base, height, locX, y, j);
    }

    /** One turn of that loop: the nibble at step j goes into one row of cells, joined by
        the bits that the nibble before left over. */
    method BlitStep(img: seq<bv8>, base: int, height: int, locX: nat, y: int, j: int,
                    carryoverValid: bool, carryoverY: bv8, ghost before: seq<bv8>)
      returns (valid: bool, carry: bv8)
      requires Buffers() && 0 <= target < 3 && locX < 32 * units && |before| == Size()
      requires CarryState(img, base, height, y, j, carryoverValid, carryoverY)
      requires j < if carryoverValid then height + 4 else height
      requires ColumnDone(before, Cells(target), img, base, height, locX, y, j)
      modifies mem[target]
      ensures CarryState(img, base, height, y, j + 4, valid, carry)
      ensures ColumnDone(before, Cells(target), img, base, height, locX, y, j + 4)
    {
      valid, carry := carryoverValid, carryoverY;
      var locY := j + y;
      if locY <= -4 || locY >= COM_SIZE {
        ColumnSkipped(units, before, Cells(target), img, base, height, locX, y, j);
        CarryKept(img, base, height, y, j, valid, carry);
        return;
      }
      if locY % 4 == 0 {
        var mask := BottomMask(height - locY, 4 - (height - j));
        AlignedStep(img, base, height, y, j);
        MergeCell(locX, y, j, mask, img[base + j / 4], before, img, base, height);
        CarryKept(img, base, height, y, j, valid, carry);
        return;
      }
      valid, carry := CarryStep(img, base, height, locX, y, j, valid, carry, before);
    }

    /** A turn off the cell grid: the nibble is split over two rows of cells, the bits
        that do not fit are carried to the next turn. */
    method CarryStep(img: seq<bv8>, base: int, height: int, locX: nat, y: int, j: int,
                     carryoverValid: bool, carryoverY: bv8, ghost before: seq<bv8>)
      returns (valid: bool, carry: bv8)
      requires Buffers() && 0 <= target < 3 && locX < 32 * units && |before| == Size()
      requires CarryState(img, base, height, y, j, carryoverValid, carryoverY)
      requires j < if carryoverValid then height + 4 else height
      requires -4 < j + y < COM_SIZE && (j + y) % 4 != 0
      requires ColumnDone(before, Cells(target), img, base, height, locX, y, j)
      modifies mem[target]
      ensures CarryState(img, base, height, y, j + 4, valid, carry)
      ensures ColumnDone(before, Cells(target), img, base, height, locX, y, j + 4)
    {
      hide Merge, Up, Down, BottomMask, ColumnCell, ColumnDone, StepMerges;
      valid, carry := carryoverValid, carryoverY;
      var carryoverNum := y % 4;
      var locY := j + y;
      CarryTaken(img, base, height, y, j, valid, carry);
      if !valid {
        if locY > 0 {
          var mask := BottomMask(height - locY, 4 - (height - j)) & Up(0xF, carryoverNum);
          FirstStep(img, base, height, y);
          MergeCell(locX, y, j, mask, Up(img[base + j / 4], carryoverNum), before, img, base, height);
        } else {
          ColumnSkipped(units, before, Cells(target), img, base, height, locX, y, j);
        }
        valid := true;
      } else if j >= height {
        var mask := Down(0xF, 4 - carryoverNum);
        LastStep(img, base, height, y, j);
        MergeCell(locX, y, j, mask, Down(carry, 4 - carryoverNum), before, img, base, height);
      } else {
        var mask := BottomMask(height - locY, 4 - (height + carryoverNum - j));
        MiddleStep(img, base, height, y, j);
        MergeCell(locX, y, j, mask, CarriedInk(img[base + j / 4], carry, carryoverNum), before, img, base, height);
      }
      if j < height {
        carry := img[base + j / 4];
      }
    }

    /** The read, mask and write that every branch of the copying engine ends in. */
    method MergeCell(locX: nat, y: int, j: int, mask: bv8, ink: bv8,
                     ghost before: seq<bv8>, ghost img: seq<bv8>, ghost base: int, ghost height: int)
      requires Buffers() && 0 <= target < 3 && OnScreen(units, locX, j + y)
      requires j % 4 == 0 && |before| == Size()
      requires ColumnDone(before, Cells(target), img, base, height, locX, y, j)
      requires StepMerges(img, base, height, y, j, mask, ink)
      modifies mem[target]
      ensures ColumnDone(before, Cells(target), img, base, height, locX, y, j + 4)
    {
      CellOfPixel(units, locX, j + y);
      ColumnStored(units, before, Cells(target), img, base, height, locX, y, j);
      var a := Addr(locX, j + y);
      StoreCell(a, Merge(mem[target][a], mask, ink));
    }

    method DrawImage(img: seq<bv8>, width: int, height: int, x: int, y: int, offset: int)
      requires Drawable() && Fits(img, width, height, offset)
      modifies Paper()
      ensures 0 <= target < 3 ==> Cells(target) == Blit(units, old(Cells(target)), img, width, height, x, y, offset)
    {
      if target > BUFFER_SECONDARY || target < 0 {
        return;
      }
      if y + height < 0 || x + width < 0 || y > COM_SIZE || x > 32 * units {
        return;
      }
      ghost var before := Cells(target);
      var i := 0;
      while i < width
        invariant 0 <= i && (width > 0 ==> i <= width) && (width <= 0 ==> i == 0)
        invariant ColumnsDone(before, Cells(target), img, width, height, x, y, offset, i)
      {
        ghost var now := Cells(target);
        var locX := i + x;
        if locX < 0 || locX >= 32 * units {
          ColumnOffScreen(units, before, now, img, width, height, x, y, offset, i);
        } else {
          ColumnFits(img, width, height, offset, i);
          BlitColumn(img, Stride(height) * i + offset, height, locX, y);
          ColumnAdded(before, now, Cells(target), img, width, height, x, y, offset, i);
        }
        i := i + 1;
      }
      ColumnsAll(units, before, Cells(target), img, width, height, x, y, offset, i);
    }

    /** drawText, with its three ways of skipping what cannot be seen. */
    method DrawText(text: seq<nat>, x: int, y: int, font: Font, gutter: int)
      requires Drawable() && font.Complete()
      modifies Paper()
      ensures 0 <= target < 3 ==> Cells(target) == Culled(units, old(Cells(target)), CString(text, 0), font, x, y, gutter)
      ensures 0 <= target < 3 && gutter >= 0 ==>
                Cells(target) == Typeset(units, old(Cells(target)), CString(text, 0), font, x, y, gutter)
    {
      hide Letter, Typeset, CString, CulledRow, GlyphOf;
      ghost var before := if 0 <= target < 3 then Cells(target) else [];
      if 0 <= target < 3 && gutter >= 0 {
        CulledIsUncut(units, before, CString(text, 0), font, x, y, gutter);
      }
      var currX := x;
      if y + font.height < 0 || y >= COM_SIZE {
        return;
      }
      var i := 0;
      assert text[0..] == text;
      while i < |text| && text[i] != 0
        invariant i <= |text|
        invariant 0 <= target < 3 ==>
                    CulledRow(units, before, CString(text, 0), font, x, y, gutter) ==
                    CulledRow(units, Cells(target), CString(text[i..], 0), font, currX, y, gutter)
      {
        if 0 <= target < 3 {
          CulledRowFrom(units, Cells(target), text, i, font, currX, y, gutter);
        }
        var g := GlyphOf(text[i]);
        if g == -1 {
          i := i + 1;
          continue;
        }
        if currX >= 32 * units {
          return;
        }
        if currX + font.widths[g] + gutter >= 0 {
          DrawLetter(font, g, currX, y, gutter);
        }
        currX := currX + font.widths[g] + gutter;
        i := i + 1;
      }
      if 0 <= target < 3 {
        CulledRowFrom(units, Cells(target), text, i, font, currX, y, gutter);
      }
    }

    method DrawLetter(font: Font, g: nat, x: int, y: int, gutter: int)
      requires Drawable() && font.Complete() && g < GLYPHS
      modifies Paper()
      ensures 0 <= target < 3 ==> Cells(target) == Letter(units, old(Cells(target)), font, g, x, y, gutter)
    {
      DrawImage(font.data, font.widths[g], font.height, x, y, g * font.step);
      ghost var drawn := if 0 <= target < 3 then Cells(target) else [];
      var j := 0;
      while j < gutter
        invariant 0 <= j <= Columns(gutter)
        invariant 0 <= target < 3 ==> Cells(target) == Gutter(units, drawn, font, x + font.widths[g], y, j)
      {
        DrawImage(font.data, 1, font.height, x + font.widths[g] + j, y, 0);
        j := j + 1;
      }
    }

    // -------------------------------------------------------------- panel-wide operations

    /** One order to chip i alone. */
    method TellChip(i: int, op: nat, ghost b0: Board)
      requires Ready() && 1 <= i <= Chips() && op < 256
      requires Told(b0, gpio.board, i - 1, op)
      modifies gpio
      ensures Ready() && Told(b0, gpio.board, i, op)
    {
      ghost var b, k := gpio.board, i - 1;
      Select(i);
      ghost var b1 := gpio.board;
      WriteData(ID_CMD, ID_LEN, k);
      BecameCommanded(b1, gpio.board, k, ID_CMD, ID_LEN);
      WriteCommand(op, k, b1, b1.chips[k].(session := Commands([])));
      ToldOne(b0, b, b1, gpio.board, k, op);
    }

    method SetBrightness(level: int)
      requires Valid()
      modifies this`brightness, gpio
      ensures Valid()
      ensures State() == old(State()).(brightness := if 1 <= level <= 16 then level else old(brightness))
      ensures forall k :: 0 <= k < |gpio.board.chips| ==> gpio.board.chips[k].config.pwm == brightness
      ensures forall c :: 0 <= c < 2 && Shown(old(gpio.board), c, Cells(c)) ==> Shown(gpio.board, c, Cells(c))
    {
      if level < 1 || level > 16 {
        return;
      }
      hide Shown, InStep, Tuned, AllReset, NoneSelected, Told, Settled;
      ghost var b0, pwm := gpio.board, brightness;
      brightness := level;
      for i := 1 to Chips() + 1
        invariant Ready() && brightness == level && Told(b0, gpio.board, i - 1, CmdPwm(level))
      {
        TellChip(i, CmdPwm(brightness), b0);
      }
      ghost var b1 := gpio.board;
      Select(0);
      ToldReset(b0, b1, gpio.board, Chips(), CmdPwm(level));
      ToldConsistent(b0, gpio.board, pwm, AllCells(), globalDirty, CmdPwm(level));
    }

    /** Turns the LED drivers of all chips off. */
    method Blank()
      requires Valid()
      modifies gpio
      ensures Valid() && State() == old(State()).(lit := false)
      ensures forall k :: 0 <= k < |gpio.board.chips| ==> !LedsOn(gpio.board.chips[k].config)
    {
      ghost var b0 := gpio.board;
      Select(0);
      ToldReset(b0, b0, gpio.board, 0, CMD_LEDOFF);
      for i := 1 to Chips() + 1
        invariant Ready() && NoneSelected(gpio.board) && AllReset(gpio.board.chips)
        invariant Told(b0, gpio.board, i - 1, CMD_LEDOFF)
      {
        TellChip(i, CMD_LEDOFF, b0);
        ghost var b1 := gpio.board;
        Select(0);
        ToldReset(b0, b1, gpio.board, i, CMD_LEDOFF);
      }
      ToldConsistent(b0, gpio.board, brightness, AllCells(), globalDirty, CMD_LEDOFF);
      ChipsLit(gpio.board, brightness, AllCells(), globalDirty);
    }

    /** Nothing is asked of the panel: whatever its select chain, its RAM and its
        configuration were, afterwards every chip is on at the stored brightness and
        shows the buffers. Its loop over the targets is RenderAll's. */
    method Reinit()
      requires Ready() && Buffers() && 0 <= target < 3 && 1 <= brightness <= 16
      modifies this`globalDirty, this`target, gpio
      ensures Valid() && State() == old(State()).(lit := true)
      ensures Shown(gpio.board, 0, Cells(0)) && Shown(gpio.board, 1, Cells(1))
      ensures forall k :: 0 <= k < |gpio.board.chips| ==>
                LedsOn(gpio.board.chips[k].config) && gpio.board.chips[k].config.pwm == brightness
    {
      hide Consistent, Settled, Shown, AllReset, NoneSelected, Tuned, ConfiguredUpTo;
      Initialize();
      AllConfigured(old(gpio.board), gpio.board, brightness);
      MarkedConsistent(gpio.board, brightness, AllCells(), globalDirty);
      RenderAll();
      ChipsLit(gpio.board, brightness, AllCells(), globalDirty);
    }

    method RenderAll()
      requires Valid()
      modifies this`globalDirty, this`target, gpio
      ensures Valid() && State() == old(State())
      ensures Shown(gpio.board, 0, Cells(0)) && Shown(gpio.board, 1, Cells(1))
    {
      var saveTarget := target;
      RenderBoards();
      DrawTarget(saveTarget);
    }

    /** The loop that RenderAll and Reinit share. */
    method RenderBoards()
      requires Valid()
      modifies this`globalDirty, this`target, gpio
      ensures Valid() && State() == old(State()).(target := 2)
      ensures Shown(gpio.board, 0, Cells(0)) && Shown(gpio.board, 1, Cells(1))
    {
      hide Consistent, Painted, Shown;
      for i := 0 to 3
        invariant Valid() && State() == old(State()).(target := target)
        invariant i > 0 ==> target == i - 1
        invariant i > 0 ==> Shown(gpio.board, 0, Cells(0))
        invariant i > 1 ==> Shown(gpio.board, 1, Cells(1))
      {
        DrawTarget(i);
        Render();
      }
    }

    /** Clear, as seen between calls. */
    method ClearTarget()
      requires Valid()
      modifies this`globalDirty, mem[target]
      ensures Valid() && State() == old(State()).(cells := old(AllCells())[target := Dark(units)])
    {
      ghost var cells, dirty := AllCells(), globalDirty;
      Clear();
      OneRedrawn(cells);
      RedrawnConsistent(gpio.board, brightness, cells, dirty, target, Dark(units), true);
    }

    lemma OneRedrawn(cells: seq<seq<bv8>>)
      requires Buffers() && 0 <= target < 3 && |cells| == 3
      requires forall c :: 0 <= c < 3 && c != target ==> Cells(c) == cells[c]
      ensures AllCells() == cells[target := Cells(target)]
    {
    }

    method ClearAll()
      requires Valid()
      modifies Repr()
      ensures Valid() && mem == old(mem)
      ensures State() == old(State()).(cells := [Dark(units), Dark(units), Dark(units)])
    {
      hide Consistent, Settled;
      var saveTarget := target;
      for i := 0 to 3
        invariant Valid() && mem == old(mem)
        invariant State() == old(State()).(target := target, cells := AllCells())
        invariant forall c :: 0 <= c < i ==> AllCells()[c] == Dark(units)
      {
        DrawTarget(i);
        ClearTarget();
      }
      DrawTarget(saveTarget);
    }

    method Begin(pinCS: int, pinWR: int, pinDATA: int, pinCLK: int)
      requires units > 0 && gpio.Wired() && gpio.board.Sized(Chips()) && !gpio.strayed
      requires gpio.wiring == Wiring(pinCS, pinWR, pinDATA, pinCLK)
      requires 1 <= brightness <= 16
      modifies this, gpio
      ensures Valid() && fresh(Repr() - {this, gpio})
      ensures State() == Frame(0, old(brightness), true, [Dark(units), Dark(units), Dark(units)])
      ensures Shown(gpio.board, 0, Cells(0)) && Shown(gpio.board, 1, Cells(1))
      ensures forall k :: 0 <= k < |gpio.board.chips| ==>
                LedsOn(gpio.board.chips[k].config) && gpio.board.chips[k].config.pwm == brightness
    {
      hide Consistent, Settled, Shown;
      Allocate();
      Connect(pinCS, pinWR, pinDATA, pinCLK);
      BringUp();
      ChipsLit(gpio.board, brightness, AllCells(), globalDirty);
    }

    method Allocate()
      requires units > 0
      modifies this`mem, this`globalDirty
      ensures Buffers() && fresh(mem[0]) && fresh(mem[1]) && fresh(mem[2])
    {
      var green, red, secondary := new bv8[Size()], new bv8[Size()], new bv8[Size()];
      mem := [green, red, secondary];
      globalDirty := [false, false, false];
    }

    method BringUp()
      requires Ready() && Buffers() && 1 <= brightness <= 16
      modifies this`globalDirty, this`target, gpio, mem[0], mem[1], mem[2]
      ensures Valid() && State() == Frame(0, brightness, true, [Dark(units), Dark(units), Dark(units)])
      ensures Shown(gpio.board, 0, Cells(0)) && Shown(gpio.board, 1, Cells(1))
    {
      hide Consistent, Settled, Shown, AllReset, NoneSelected, Tuned, ConfiguredUpTo;
      Initialize();
      AllConfigured(old(gpio.board), gpio.board, brightness);
      target := 0;
      MarkedConsistent(gpio.board, brightness, AllCells(), globalDirty);
      FirstRendering();
    }

    method FirstRendering()
      requires Valid()
      modifies this`globalDirty, this`target, gpio, mem[0], mem[1], mem[2]
      ensures Valid()
      ensures State() == old(State()).(target := 0, cells := [Dark(units), Dark(units), Dark(units)])
      ensures Shown(gpio.board, 0, Cells(0)) && Shown(gpio.board, 1, Cells(1))
    {
      ClearAndRenderBoards();
      DrawTarget(0);
    }

    /** Takes the four pins as outputs, and their register masks if there are any. */
    method Connect(pinCS: int, pinWR: int, pinDATA: int, pinCLK: int)
      requires units > 0 && gpio.Wired() && gpio.board.Sized(Chips()) && !gpio.strayed
      requires gpio.wiring == Wiring(pinCS, pinWR, pinDATA, pinCLK)
      modifies this`pinCS, this`pinWR, this`pinDATA, this`pinCLK
      modifies this`burstReady, this`maskCS, this`maskWR, this`maskDATA, this`maskCLK, gpio
      ensures Ready() && gpio.board.wires == Wires(true, false, false, false)
      ensures gpio.outputs == old(gpio.outputs) + {pinCS, pinWR, pinDATA, pinCLK}
      ensures burstReady <==> gpio.mapped && 0 <= pinCS < 32 && 0 <= pinWR < 32 && 0 <= pinDATA < 32 && 0 <= pinCLK < 32
    {
      this.pinCS, this.pinWR, this.pinDATA, this.pinCLK := pinCS, pinWR, pinDATA, pinCLK;
      gpio.ConfigureOutput(pinCS, true);
      gpio.ConfigureOutput(pinWR, false);
      gpio.ConfigureOutput(pinDATA, false);
      gpio.ConfigureOutput(pinCLK, false);
      AcquireMasks();
    }

    method AcquireMasks()
      requires units > 0 && gpio.Wired() && gpio.board.Sized(Chips()) && !gpio.strayed && Settled(gpio.board)
      requires gpio.wiring == Wiring(pinCS, pinWR, pinDATA, pinCLK) && {pinCS, pinWR, pinDATA, pinCLK} <= gpio.outputs
      modifies this`burstReady, this`maskCS, this`maskWR, this`maskDATA, this`maskCLK
      ensures Ready()
      ensures burstReady <==> gpio.mapped && SupportsOffset(pinCS) && SupportsOffset(pinWR) && SupportsOffset(pinDATA) && SupportsOffset(pinCLK)
    {
      burstReady := false;
      var pins := [pinCS, pinWR, pinDATA, pinCLK];
      var ok, masks := gpio.AcquireBurst(pins);
      if ok {
        maskCS, maskWR, maskDATA, maskCLK := masks[0], masks[1], masks[2], masks[3];
        burstReady := true;
        assert SupportsOffset(pins[0]) && SupportsOffset(pins[1]) && SupportsOffset(pins[2]) && SupportsOffset(pins[3]);
      }
    }

    /** The loop that ends Begin. */
    method ClearAndRenderBoards()
      requires Valid()
      modifies this`globalDirty, this`target, gpio, mem[0], mem[1], mem[2]
      ensures Valid()
      ensures State() == old(State()).(target := 2, cells := [Dark(units), Dark(units), Dark(units)])
      ensures Shown(gpio.board, 0, Cells(0)) && Shown(gpio.board, 1, Cells(1))
    {
      for i := 0 to 3
        invariant Valid()
        invariant State() == old(State()).(target := target, cells := AllCells())
        invariant i > 0 ==> target == i - 1
        invariant forall c :: 0 <= c < i ==> AllCells()[c] == Dark(units)
        invariant forall c :: 0 <= c < i && c < 2 ==> Shown(gpio.board, c, AllCells()[c])
      {
        ClearAndRender(i);
      }
    }

    method ClearAndRender(i: int)
      requires Valid() && 0 <= i < 3
      modifies this`globalDirty, this`target, gpio, mem[i]
      ensures Valid()
      ensures State() == old(State()).(target := i, cells := old(AllCells())[i := Dark(units)])
      ensures i < 2 ==> Shown(gpio.board, i, Dark(units))
      ensures forall c :: 0 <= c < 2 && c != i && Shown(old(gpio.board), c, AllCells()[c]) ==> Shown(gpio.board, c, AllCells()[c])
    {
      hide Consistent, Painted, Shown, Settled;
      DrawTarget(i);
      ClearTarget();
      Render();
      assert Cells(i) == AllCells()[i];
    }

    // -------------------------------------------------------------- transitions

    method SwapBuffers()
      requires Valid() && target < 2
      modifies this`mem, this`globalDirty
      ensures Valid() && Repr() == old(Repr())
      ensures State() == old(State()).(cells := Transit(units, target, old(AllCells()), BUFFER_SWAP))
    {
      ghost var cells, dirty := AllCells(), globalDirty;
      var tmp := mem[target];
      mem := mem[target := mem[BUFFER_SECONDARY]];
      mem := mem[BUFFER_SECONDARY := tmp];
      globalDirty := globalDirty[target := true];
      DrawnConsistent(gpio.board, brightness, cells, dirty, AllCells(), globalDirty);
    }

    /** Dims, swaps in the darkened screen's replacement, and brightens again. */
    method Fade()
      requires Valid() && target < 2
      modifies Repr()
      ensures Valid() && Repr() == old(Repr())
      ensures State() == old(State()).(cells := Transit(units, target, old(AllCells()), FADE))
      ensures Shown(gpio.board, target, Cells(target))
    {
      var brightnessSave := brightness;
      SetEachBrightness(1, 15, true);
      SwapThroughDark();
      BrightenBack(brightnessSave);
    }

    method SwapThroughDark()
      requires Valid() && target < 2
      modifies Repr()
      ensures Valid() && Repr() == old(Repr())
      ensures State() == old(State()).(cells := Transit(units, target, old(AllCells()), FADE))
      ensures Shown(gpio.board, target, Cells(target))
    {
      hide Consistent, Settled, Shown, Dark;
      ClearAndRender(target);
      SwapAndRender();
    }

    method SwapAndRender()
      requires Valid() && target < 2
      modifies this`mem, this`globalDirty, gpio
      ensures Valid() && Repr() == old(Repr())
      ensures State() == old(State()).(cells := Transit(units, target, old(AllCells()), BUFFER_SWAP))
      ensures Shown(gpio.board, target, Cells(target))
    {
      SwapBuffers();
      Render();
    }

    method BrightenBack(save: int)
      requires Valid() && 1 <= save <= 16
      modifies this`brightness, gpio
      ensures Valid() && State() == old(State()).(brightness := save)
      ensures forall c :: 0 <= c < 2 && Shown(old(gpio.board), c, Cells(c)) ==> Shown(gpio.board, c, Cells(c))
    {
      SetEachBrightness(2, 16, false);
      SetBrightness(save);
    }

    /** One of Fade's two ramps: every level from low to high, downwards or upwards. */
    method SetEachBrightness(low: int, high: int, down: bool)
      requires Valid()
      modifies this`brightness, gpio
      ensures Valid() && State() == old(State()).(brightness := brightness)
      ensures forall c :: 0 <= c < 2 && Shown(old(gpio.board), c, Cells(c)) ==> Shown(gpio.board, c, Cells(c))
    {
      var i := if down then high else low;
      while low <= i <= high
        invariant Valid() && State() == old(State()).(brightness := brightness)
        invariant forall c :: 0 <= c < 2 && Shown(old(gpio.board), c, Cells(c)) ==> Shown(gpio.board, c, Cells(c))
        decreases if down then i - low else high - i
      {
        SetBrightness(i);
        i := if down then i - 1 else i + 1;
      }
    }

    method Transition(mode: int)
      requires target < 0 || Valid()
      modifies if 0 <= target && |mem| == 3 then Repr() else {}
      ensures target == old(target)
      ensures 0 <= target ==> Valid() && Repr() == old(Repr())
      ensures 0 <= target ==> State() == old(State()).(cells := Transit(units, target, old(AllCells()), mode))
    {
      if target >= BUFFER_SECONDARY || target < 0 {
        return;
      }
      if mode == BUFFER_SWAP {
        SwapBuffers();
      } else if mode == FADE {
        Fade();
      } else if mode == SAVE || mode == SAVE_XOR || mode == REMOVE_PIXELS {
        ChangeSecondary(mode);
      } else if mode == RESTORE || mode == RESTORE_OR {
        ChangeTarget(mode);
      }
    }

    /** The transitions that write the secondary buffer, which is never rendered. */
    method ChangeSecondary(mode: int)
      requires Valid() && target < 2 && (mode == SAVE || mode == SAVE_XOR || mode == REMOVE_PIXELS)
      modifies mem[2]
      ensures Valid()
      ensures State() == old(State()).(cells := Transit(units, target, old(AllCells()), mode))
    {
      ghost var cells := AllCells();
      if mode == SAVE {
        CopyInto(mem[2], mem[target]);
      } else if mode == SAVE_XOR {
        XorInto(mem[2], mem[target]);
      } else {
        RemoveFrom(mem[2], mem[target]);
      }
      SecondaryRewritten(cells);
      SecondaryFree(gpio.board, brightness, cells, globalDirty, Cells(2));
    }

    /** The transitions that write the rendered buffer mark the whole of it. */
    method ChangeTarget(mode: int)
      requires Valid() && target < 2 && (mode == RESTORE || mode == RESTORE_OR)
      modifies mem[target], this`globalDirty
      ensures Valid()
      ensures State() == old(State()).(cells := Transit(units, target, old(AllCells()), mode))
    {
      hide Consistent, Settled, Union;
      ghost var cells, dirty := AllCells(), globalDirty;
      if mode == RESTORE {
        CopyInto(mem[target], mem[2]);
      } else {
        OrInto(mem[target], mem[2]);
      }
      globalDirty := globalDirty[target := true];
      OneRedrawn(cells);
      RedrawnConsistent(gpio.board, brightness, cells, dirty, target, Cells(target), true);
    }

    lemma SecondaryRewritten(cells: seq<seq<bv8>>)
      requires Buffers() && |cells| == 3 && Cells(0) == cells[0] && Cells(1) == cells[1]
      ensures AllCells() == cells[2 := Cells(2)]
    {
    }
  }

  method CopyInto(dst: array<bv8>, src: array<bv8>)
    requires dst != src && dst.Length == src.Length
    modifies dst
    ensures dst[..] == src[..]
  {
    for i := 0 to dst.Length
      invariant forall k :: 0 <= k < i ==> dst[k] == src[k]
    {
      dst[i] := src[i];
    }
  }

  method XorInto(dst: array<bv8>, src: array<bv8>)
    requires dst != src && dst.Length == src.Length
    modifies dst
    ensures dst[..] == Xor(old(dst[..]), src[..])
  {
    hide XorCell;
    for i := 0 to dst.Length
      invariant forall k :: 0 <= k < i ==> dst[k] == XorCell(old(dst[k]), src[k])
      invariant forall k :: i <= k < dst.Length ==> dst[k] == old(dst[k])
    {
      dst[i] := XorCell(dst[i], src[i]);
    }
  }

  method RemoveFrom(dst: array<bv8>, src: array<bv8>)
    requires dst != src && dst.Length == src.Length
    modifies dst
    ensures dst[..] == Without(old(dst[..]), src[..])
  {
    hide WithoutCell;
    for i := 0 to dst.Length
      invariant forall k :: 0 <= k < i ==> dst[k] == WithoutCell(old(dst[k]), src[k])
      invariant forall k :: i <= k < dst.Length ==> dst[k] == old(dst[k])
    {
      var pixels := src[i];
      dst[i] := WithoutCell(dst[i], pixels);
    }
  }

  method OrInto(dst: array<bv8>, src: array<bv8>)
    requires dst != src && dst.Length == src.Length
    modifies dst
    ensures dst[..] == Union(old(dst[..]), src[..])
  {
    hide UnionCell;
    for i := 0 to dst.Length
      invariant forall k :: 0 <= k < i ==> dst[k] == UnionCell(old(dst[k]), src[k])
      invariant forall k :: i <= k < dst.Length ==> dst[k] == old(dst[k])
    {
      dst[i] := UnionCell(dst[i], src[i]);
    }
  }

  /** The width of a text in columns, its last gutter not counted. */
  method GetTextWidth(text: seq<nat>, font: Font, gutter: int) returns (width: int)
    requires |font.widths| == GLYPHS
    ensures forall x :: Cursor(CString(text, 0), font, x, gutter) == x + width + gutter
  {
    hide CString, Cursor, GlyphOf;
    var wd := 0;
    var i := 0;
    assert text[0..] == text;
    while i < |text| && text[i] != 0
      invariant i <= |text|
      invariant Cursor(CString(text, 0), font, 0, gutter) == Cursor(CString(text[i..], 0), font, wd, gutter)
    {
      CursorFrom(text, i, font, wd, gutter);
      var g := GlyphOf(text[i]);
      if g != -1 {
        wd := wd + font.widths[g] + gutter;
      }
      i := i + 1;
    }
    CursorFrom(text, i, font, wd, gutter);
    forall x
      ensures Cursor(CString(text, 0), font, x, gutter) == x + wd
    {
      CursorShift(CString(text, 0), font, 0, x, gutter);
    }
    width := wd - gutter;
  }

  /** PWM_T | (level - 1); the level fills the four zero bits of the template. */
  function CmdPwm(level: int): nat
    requires 1 <= level <= 16
  {
    CMD_PWM_T + (level - 1)
  }

  // ---------------------------------------------------------------- bit arithmetic

  /** `data & t` for a power of two t. */
  predicate TestBit(data: nat, t: nat)
    requires t > 0
  {
    data / t % 2 == 1
  }

  lemma DivTwice(data: nat, t: nat)
    requires t > 0
    ensures data / (2 * t) == data / 2 / t
  {
    var h := data / 2;
    var q, r := h / t, h % t;
    assert h == t * q + r;
    assert data == (2 * t) * q + (2 * r + data % 2);
    ModUnique(data, 2 * t, q, 2 * r + data % 2);
  }

  lemma {:induction false} BitAt(data: nat, len: nat, i: nat)
    requires i < len
    ensures Msb(data, len)[i] == TestBit(data, Pow2(len - 1 - i))
  {
    if i < len - 1 {
      BitAt(data / 2, len - 1, i);
      DivTwice(data, Pow2(len - 2 - i));
    }
  }

  function Shifted(cell: bv8, j: nat): bv8 {
    if j == 0 then cell else Shifted(cell, j - 1) >> 1
  }

  lemma ShiftedBits(cell: bv8)
    ensures forall j :: 0 <= j < 4 ==> (Shifted(cell, j) & 1 != 0) == Lsb4(cell)[j]
  {
    assert Shifted(cell, 1) == cell >> 1;
    assert Shifted(cell, 2) == cell >> 2;
    assert Shifted(cell, 3) == cell >> 3;
  }
}
