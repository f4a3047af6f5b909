/** The receiving side of the HT1632 wiring: a shift chain of chip-select bits
    and, behind each bit, one HT1632 chip with its serial decoder, its display RAM
    and its command registers.

    Nothing in this module knows how the driver works. It is the independent
    reading of the wires against which the driver is judged. */
module Panel {

  // ---------------------------------------------------------------- wires

  datatype Line = CS | WR | DATA | CLK

  /** The levels of the four wires; true is high. */
  datatype Wires = Wires(cs: bool, wr: bool, data: bool, clk: bool)

  function Put(w: Wires, line: Line, high: bool): Wires {
    match line
    case CS => w.(cs := high)
    case WR => w.(wr := high)
    case DATA => w.(data := high)
    case CLK => w.(clk := high)
  }

  // ---------------------------------------------------------------- chips

  const RAM_WORDS: nat := 128   // seven address bits

  type Ram = s: seq<bv8> | |s| == RAM_WORDS witness seq(RAM_WORDS, _ => 0)

  datatype ClockMode = Slave | OnChip | RcMaster | ExternalClock

  datatype Config = Config(oscillator: bool, led: bool, blink: bool, pwm: nat, commons: nat, clock: ClockMode)

  /** What a chip has heard since it was selected. */
  datatype Session =
    | Header(got: seq<bool>)             // collecting the three ID bits
    | Address(got: seq<bool>)            // collecting the seven address bits
    | Words(addr: nat, got: seq<bool>)   // collecting a data word for `addr`
    | Commands(got: seq<bool>)           // collecting eight command bits and one idle bit
    | Deaf                               // an ID this panel does not serve

  datatype Chip = Chip(ram: Ram, config: Config, session: Session)

  const START: Session := Header([])

  /** Most significant bit first. */
  function FromMsb(bits: seq<bool>): nat {
    if bits == [] then 0
    else 2 * FromMsb(bits[..|bits| - 1]) + (if bits[|bits| - 1] then 1 else 0)
  }

  /** Data bit D0 comes first and is the lowest of the word. */
  function Nibble(b0: bool, b1: bool, b2: bool, b3: bool): bv8 {
    (if b0 then 1 else 0) | (if b1 then 2 else 0) | (if b2 then 4 else 0) | (if b3 then 8 else 0)
  }

  /** The command table of the data sheet, on the eight significant bits. */
  function Execute(c: Config, op: nat): Config {
    if op == 0x00 then c.(oscillator := false)
    else if op == 0x01 then c.(oscillator := true)
    else if op == 0x02 then c.(led := false)
    else if op == 0x03 then c.(led := true)
    else if op == 0x08 then c.(blink := false)
    else if op == 0x09 then c.(blink := true)
    else if 0x10 <= op < 0x14 then c.(clock := Slave)
    else if 0x14 <= op < 0x18 then c.(clock := OnChip)
    else if 0x18 <= op < 0x1C then c.(clock := RcMaster)
    else if 0x1C <= op < 0x20 then c.(clock := ExternalClock)
    else if 0x20 <= op < 0x30 then c.(commons := (op - 0x20) / 4)
    else if 0xA0 <= op < 0xC0 then c.(pwm := op % 16 + 1)
    else c
  }

  /** Several commands, the first one first. */
  function ExecuteAll(c: Config, ops: seq<nat>): Config {
    if ops == [] then c else Execute(ExecuteAll(c, ops[..|ops| - 1]), ops[|ops| - 1])
  }

  /** One WR rising edge at a selected chip, with `bit` on DATA. */
  function Receive(chip: Chip, bit: bool): Chip {
    match chip.session
    case Header(got) =>
      var now := got + [bit];
      if |now| < 3 then chip.(session := Header(now))
      else if now[..3] == [true, false, false] then chip.(session := Commands([]))
      else if now[..3] == [true, false, true] then chip.(session := Address([]))
      else chip.(session := Deaf)
    case Address(got) =>
      var now := got + [bit];
      if |now| < 7 then chip.(session := Address(now))
      else chip.(session := Words(FromMsb(now), []))
    case Words(addr, got) =>
      var now := got + [bit];
      if |now| < 4 then chip.(session := Words(addr, now))
      else chip.(ram := chip.ram[addr % RAM_WORDS := Nibble(now[0], now[1], now[2], now[3])],
                 session := Words((addr + 1) % RAM_WORDS, []))
    case Commands(got) =>
      var now := got + [bit];
      if |now| < 9 then chip.(session := Commands(now))
      else chip.(config := Execute(chip.config, FromMsb(now[..8])), session := Commands([]))
    case Deaf => chip
  }

  function ReceiveAll(chip: Chip, bits: seq<bool>): Chip {
    if bits == [] then chip
    else Receive(ReceiveAll(chip, bits[..|bits| - 1]), bits[|bits| - 1])
  }

  // ---------------------------------------------------------------- panel

  /** `chain[k]` is the select bit in front of chip k + 1; low means selected. */
  datatype Board = Board(wires: Wires, chain: seq<bool>, chips: seq<Chip>) {
    ghost predicate Sized(n: nat) { |chain| == n && |chips| == n }
  }

  function Reset(chip: Chip): Chip { chip.(session := START) }

  /** A CLK rising edge moves every select bit one chip further; a chip whose bit
      is high afterwards forgets what it was hearing. */
  function Shift(b: Board): (r: Board)
    requires |b.chain| == |b.chips| > 0
    ensures r.wires == b.wires && |r.chain| == |b.chain| && |r.chips| == |b.chips|
  {
    var chain := [b.wires.cs] + b.chain[..|b.chain| - 1];
    b.(chain := chain,
       chips := seq(|b.chips|, k requires 0 <= k < |b.chips| =>
                  if chain[k] then Reset(b.chips[k]) else b.chips[k]))
  }

  /** A WR rising edge is heard by every selected chip. */
  function Strobe(b: Board): (r: Board)
    requires |b.chain| == |b.chips|
    ensures r.wires == b.wires && r.chain == b.chain && |r.chips| == |b.chips|
  {
    b.(chips := seq(|b.chips|, k requires 0 <= k < |b.chips| =>
                  if b.chain[k] then b.chips[k] else Receive(b.chips[k], b.wires.data)))
  }

  /** Chip k + 1 is selected and no other. */
  ghost predicate Only(b: Board, k: int) {
    0 <= k < |b.chain| && forall i :: 0 <= i < |b.chain| ==> (b.chain[i] <==> i != k)
  }

  /** WR rises while no chip is listening, or more than one. */
  ghost predicate Stray(b: Board, w: Wires) {
    !b.wires.wr && w.wr && !exists k :: Only(b, k)
  }

  /** The panel's reaction to its wires taking the levels `w`. */
  function Sense(b: Board, w: Wires): Board
    requires |b.chain| == |b.chips| > 0
  {
    var moved := b.(wires := w);
    if !b.wires.clk && w.clk then Shift(moved)
    else if !b.wires.wr && w.wr then Strobe(moved)
    else moved
  }

  function Drive(b: Board, line: Line, high: bool): Board
    requires |b.chain| == |b.chips| > 0
  {
    Sense(b, Put(b.wires, line, high))
  }

  // ---------------------------------------------------------------- what the eye sees

  /** By the data sheet a chip drives its LEDs while its oscillator and its LED duty cycle
      generator are on and it does not blink; on this panel, with commons option 00 and as
      RC master. */
  predicate LedsOn(c: Config) {
    c.oscillator && c.led && !c.blink && c.commons == 0 && c.clock == RcMaster
  }

  /** Is the LED of one colour at pixel (x, y) lit? Each 32 by 16 pixels are four chips:
      upper left, upper right, lower left, lower right. A chip has 32 words for each colour,
      two words for each of its 16 columns, and in a word the upper pixel is the lowest bit. */
  predicate Glows(b: Board, color: nat, x: nat, y: nat)
    requires color < 2 && y < 16
  {
    var k := x / 32 * 4 + y / 8 * 2 + x / 16 % 2;
    && k < |b.chips| && LedsOn(b.chips[k].config)
    && b.chips[k].ram[32 * color + x % 16 * 2 + y / 4 % 2] & [1, 2, 4, 8][y % 4] != 0
  }
}
