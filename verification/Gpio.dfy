/** Output pins, written one at a time or through the SET and CLEAR registers. */
module Gpio {
  import opened Panel

  /** The pins that the four wires of the panel are soldered to. */
  datatype Wiring = Wiring(cs: int, wr: int, data: int, clk: int) {
    function Pin(line: Line): int {
      match line
      case CS => cs
      case WR => wr
      case DATA => data
      case CLK => clk
    }

    ghost predicate Distinct() {
      cs != wr && cs != data && cs != clk && wr != data && wr != clk && data != clk
    }
  }

  function Levels(wiring: Wiring, high: set<int>): Wires {
    Wires(wiring.cs in high, wiring.wr in high, wiring.data in high, wiring.clk in high)
  }

  // ---------------------------------------------------------------- registers

  predicate SupportsOffset(pin: int) { 0 <= pin < 32 }

  /** Bit 0 for pin 0, and every next bit for the next pin. */
  function MaskForOffset(pin: int): bv32
    requires SupportsOffset(pin)
  {
    (1 as bv32) << pin
  }

  /** The pins named by a register word. */
  function Pins(mask: bv32): set<int> {
    set pin | 0 <= pin < 32 && BitOf(mask, pin)
  }

  predicate BitOf(mask: bv32, pin: int)
    requires 0 <= pin < 32
  {
    (mask >> pin) & 1 == 1
  }

  lemma MaskBits(p: int, q: int)
    requires SupportsOffset(p) && SupportsOffset(q)
    ensures BitOf(MaskForOffset(p), q) <==> p == q
  {
    var bp, bq := p as bv32, q as bv32;
    assert MaskForOffset(p) == (1 as bv32) << bp;
    assert BitOf(MaskForOffset(p), q) <==> (((1 as bv32) << bp) >> bq) & 1 == 1;
    assert bp == bq <==> p == q;
    ShiftedOne(bp, bq);
  }

  lemma ShiftedOne(p: bv32, q: bv32)
    requires p < 32 && q < 32
    ensures (((1 as bv32) << p) >> q) & 1 == 1 <==> p == q
  {
  }

  lemma MaskNamesOnePin(p: int)
    requires SupportsOffset(p)
    ensures Pins(MaskForOffset(p)) == {p}
  {
    hide BitOf, MaskForOffset;
    forall q | SupportsOffset(q)
      ensures q in Pins(MaskForOffset(p)) <==> q == p
    {
      MaskBits(p, q);
    }
  }

  lemma MaskDoubles(p: int)
    requires 0 <= p < 31
    ensures MaskForOffset(0) == 1 && MaskForOffset(p + 1) == 2 * MaskForOffset(p)
  {
    var bp := p as bv32;
    assert MaskForOffset(p) == (1 as bv32) << bp;
    assert MaskForOffset(p + 1) == (1 as bv32) << (bp + 1);
    NextShift(bp);
  }

  lemma NextShift(p: bv32)
    requires p < 31
    ensures (1 as bv32) << (p + 1) == 2 * ((1 as bv32) << p)
  {
  }

  // ---------------------------------------------------------------- the two value paths

  /** The high pins after a per-pin write. */
  function AfterWrite(high: set<int>, pin: int, value: bool): set<int> {
    if value then high + {pin} else high - {pin}
  }

  /** The high pins after a word is stored to the SET or to the CLEAR register. */
  function AfterStore(high: set<int>, mask: bv32, value: bool): set<int> {
    if value then high + Pins(mask) else high - Pins(mask)
  }

  datatype Edge = Edge(line: Line, value: bool)

  /** The pin levels after each edge, on the per-pin path. */
  function PlainHistory(high: set<int>, wiring: Wiring, edges: seq<Edge>): seq<set<int>>
    decreases edges
  {
    if edges == [] then []
    else
      var next := AfterWrite(high, wiring.Pin(edges[0].line), edges[0].value);
      [next] + PlainHistory(next, wiring, edges[1..])
  }

  /** The pin levels after each edge, when each line is addressed by its register mask. */
  function BurstHistory(high: set<int>, masks: Line -> bv32, edges: seq<Edge>): seq<set<int>>
    decreases edges
  {
    if edges == [] then []
    else
      var next := AfterStore(high, masks(edges[0].line), edges[0].value);
      [next] + BurstHistory(next, masks, edges[1..])
  }

  /** Whatever the driver emits, the register path shows every pin the levels that
      the per-pin path shows it, edge by edge. */
  lemma {:induction false} BurstEqualsPlain(high: set<int>, wiring: Wiring, masks: Line -> bv32, edges: seq<Edge>)
    requires forall line :: SupportsOffset(wiring.Pin(line)) && masks(line) == MaskForOffset(wiring.Pin(line))
    ensures BurstHistory(high, masks, edges) == PlainHistory(high, wiring, edges)
    decreases edges
  {
    if edges != [] {
      MaskNamesOnePin(wiring.Pin(edges[0].line));
      BurstEqualsPlain(AfterWrite(high, wiring.Pin(edges[0].line), edges[0].value), wiring, masks, edges[1..]);
    }
  }

  /** On distinct pins a per-pin write moves one wire of the panel and no other. */
  lemma OneWire(high: set<int>, wiring: Wiring, line: Line, value: bool)
    requires wiring.Distinct()
    ensures Levels(wiring, AfterWrite(high, wiring.Pin(line), value)) == Put(Levels(wiring, high), line, value)
  {
  }

  // ---------------------------------------------------------------- the device

  /** The pins of the board computer, with the panel soldered to four of them.
      `board` is what the panel makes of the levels so far; `strayed` says whether at
      some WR edge not exactly one chip was listening. */
  class Device {
    const wiring: Wiring
    const mapped: bool      // are the SET and CLEAR registers reachable
    var high: set<int>
    var outputs: set<int>   // the lines claimed as outputs
    ghost var board: Board
    ghost var strayed: bool

    ghost predicate Wired()
      reads this
    {
      && wiring.Distinct()
      && |board.chain| == |board.chips| > 0
      && board.wires == Levels(wiring, high)
    }

    constructor (wiring: Wiring, mapped: bool, high: set<int>, ghost chain: seq<bool>, ghost chips: seq<Chip>)
      requires wiring.Distinct()
      requires |chain| == |chips| > 0
      ensures Wired() && this.wiring == wiring && this.mapped == mapped && outputs == {}
      ensures board == Board(Levels(wiring, high), chain, chips) && !strayed
    {
      this.wiring, this.mapped, this.high, outputs := wiring, mapped, high, {};
      board, strayed := Board(Levels(wiring, high), chain, chips), false;
    }

    method Write(pin: int, value: bool)
      requires Wired()
      modifies this
      ensures Wired() && outputs == old(outputs)
      ensures high == AfterWrite(old(high), pin, value)
      ensures board == Sense(old(board), Levels(wiring, high))
      ensures strayed == (old(strayed) || Stray(old(board), Levels(wiring, high)))
    {
      high := AfterWrite(high, pin, value);
      strayed := strayed || Stray(board, Levels(wiring, high));
      board := Sense(board, Levels(wiring, high));
    }

    method ConfigureOutput(pin: int, initial: bool)
      requires Wired()
      modifies this
      ensures Wired() && outputs == old(outputs) + {pin}
      ensures high == AfterWrite(old(high), pin, initial)
      ensures board == Sense(old(board), Levels(wiring, high))
      ensures strayed == (old(strayed) || Stray(old(board), Levels(wiring, high)))
    {
      Write(pin, initial);
      outputs := outputs + {pin};
    }

    /** Stores `mask` to the SET register or to the CLEAR register. */
    method BurstWrite(mask: bv32, value: bool)
      requires Wired()
      modifies this
      ensures Wired() && outputs == old(outputs)
      ensures high == AfterStore(old(high), mask, value)
      ensures board == Sense(old(board), Levels(wiring, high))
      ensures strayed == (old(strayed) || Stray(old(board), Levels(wiring, high)))
    {
      if value {
        high := high + Pins(mask);
      } else {
        high := high - Pins(mask);
      }
      strayed := strayed || Stray(board, Levels(wiring, high));
      board := Sense(board, Levels(wiring, high));
    }

    /** Masks for all the pins, or a refusal when there are none, or when one of them is
        not claimed as an output or is outside bank 0. */
    method AcquireBurst(pins: seq<int>) returns (ok: bool, masks: seq<bv32>)
      ensures ok <==> pins != [] && mapped && forall k :: 0 <= k < |pins| ==> pins[k] in outputs && 0 <= pins[k] < 32
      ensures ok ==> |masks| == |pins|
      ensures ok ==> forall k :: 0 <= k < |pins| ==> masks[k] == MaskForOffset(pins[k])
    {
      masks := [];
      if pins == [] || !mapped {
        return false, masks;
      }
      for i := 0 to |pins|
        invariant |masks| == i
        invariant forall k :: 0 <= k < i ==> pins[k] in outputs && SupportsOffset(pins[k]) && masks[k] == MaskForOffset(pins[k])
      {
        if pins[i] !in outputs || !SupportsOffset(pins[i]) {
          return false, masks;
        }
        masks := masks + [MaskForOffset(pins[i])];
      }
      ok := true;
    }
  }
}
