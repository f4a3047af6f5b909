/** What runs of edges mean to the panel: bits, bit strings, chip selection. */
module Protocol {
  import opened Panel

  // ---------------------------------------------------------------- bit strings

  function Pow2(n: nat): (p: nat)
    ensures p > 0
  {
    if n == 0 then 1 else 2 * Pow2(n - 1)
  }

  /** The low `len` bits of `v`, most significant first. */
  function Msb(v: nat, len: nat): (bits: seq<bool>)
    ensures |bits| == len
  {
    if len == 0 then [] else Msb(v / 2, len - 1) + [v % 2 == 1]
  }

  /** The four low bits of a memory cell, least significant first. */
  function Lsb4(cell: bv8): (bits: seq<bool>)
    ensures |bits| == 4
  {
    [cell & 1 != 0, cell & 2 != 0, cell & 4 != 0, cell & 8 != 0]
  }

  lemma LsbFirst(cell: bv8, j: nat)
    requires j < 4
    ensures Lsb4(cell)[j] <==> (cell >> j) & 1 == 1
  {
  }

  lemma {:induction false} MsbRoundTrip(v: nat, len: nat)
    ensures FromMsb(Msb(v, len)) == v % Pow2(len)
  {
    if len > 0 {
      MsbRoundTrip(v / 2, len - 1);
      assert Msb(v, len)[..len - 1] == Msb(v / 2, len - 1);
      HalfMod(v, Pow2(len - 1));
    }
  }

  lemma HalfMod(v: nat, p: nat)
    requires p > 0
    ensures v % (2 * p) == 2 * ((v / 2) % p) + v % 2
  {
    var q, r := v / 2 / p, v / 2 % p;
    assert v / 2 == q * p + r;
    assert v == (2 * p) * q + (2 * r + v % 2);
    ModUnique(v, 2 * p, q, 2 * r + v % 2);
  }

  lemma ModUnique(v: nat, d: nat, q: nat, r: nat)
    requires d > 0 && r < d && v == d * q + r
    ensures v % d == r && v / d == q
  {
    assert v == d * (v / d) + v % d;
    assert d * (v / d - q) == r - v % d;
    Multiple(d, v / d - q);
  }

  lemma Multiple(d: nat, k: int)
    requires d > 0 && 0 < d * k + d < 2 * d
    ensures k == 0
  {
  }

  lemma NibbleRoundTrip(cell: bv8)
    ensures Nibble(Lsb4(cell)[0], Lsb4(cell)[1], Lsb4(cell)[2], Lsb4(cell)[3]) == cell & 0xF
  {
  }

  // ---------------------------------------------------------------- one chip's view

  lemma {:induction false} ReceiveAppend(chip: Chip, a: seq<bool>, b: seq<bool>)
    ensures ReceiveAll(chip, a + b) == ReceiveAll(ReceiveAll(chip, a), b)
  {
    if b == [] {
      assert a + b == a;
    } else {
      assert (a + b)[..|a + b| - 1] == a + b[..|b| - 1];
      ReceiveAppend(chip, a, b[..|b| - 1]);
    }
  }

  lemma HeaderBits(chip: Chip, bits: seq<bool>)
    requires chip.session == START && |bits| == 3
    ensures ReceiveAll(chip, bits) == chip.(session :=
                if bits == [true, false, false] then Commands([])
                else if bits == [true, false, true] then Address([]) else Deaf)
  {
    assert bits == [bits[0], bits[1], bits[2]];
    ReceiveAppend(chip, [], [bits[0]]);
    assert [] + [bits[0]] == [bits[0]];
    ReceiveAppend(chip, [bits[0]], [bits[1]]);
    assert [bits[0]] + [bits[1]] == [bits[0], bits[1]];
    ReceiveAppend(chip, [bits[0], bits[1]], [bits[2]]);
    assert [bits[0], bits[1]] + [bits[2]] == bits;
  }

  lemma {:induction false} AddressPrefix(chip: Chip, bits: seq<bool>)
    requires chip.session == Address([]) && |bits| < 7
    ensures ReceiveAll(chip, bits) == chip.(session := Address(bits))
  {
    if bits != [] {
      AddressPrefix(chip, bits[..|bits| - 1]);
      assert bits[..|bits| - 1] + [bits[|bits| - 1]] == bits;
    }
  }

  lemma AddressEnd(chip: Chip, bits: seq<bool>)
    requires chip.session == Address([]) && |bits| == 7
    ensures ReceiveAll(chip, bits) == chip.(session := Words(FromMsb(bits), []))
  {
    AddressPrefix(chip, bits[..6]);
    assert bits[..6] + [bits[6]] == bits;
  }

  lemma PowersOfTwo()
    ensures Pow2(3) == 8 && Pow2(7) == 128 && Pow2(8) == 256
  {
  }

  lemma AddressBits(chip: Chip, a: nat, len: nat)
    requires chip.session == Address([]) && a < 128 && len == 7
    ensures ReceiveAll(chip, Msb(a, len)) == chip.(session := Words(a, []))
  {
    assert FromMsb(Msb(a, len)) == a by {
      MsbRoundTrip(a, len);
      PowersOfTwo();
    }
    AddressEnd(chip, Msb(a, len));
  }

  lemma {:induction false} WordPrefix(chip: Chip, bits: seq<bool>)
    requires chip.session.Words? && chip.session.got == [] && |bits| < 4
    ensures ReceiveAll(chip, bits) == chip.(session := Words(chip.session.addr, bits))
  {
    if bits != [] {
      WordPrefix(chip, bits[..|bits| - 1]);
      assert bits[..|bits| - 1] + [bits[|bits| - 1]] == bits;
    }
  }

  lemma FourthBit(chip: Chip, a: nat, got: seq<bool>, bit: bool)
    requires chip.session == Words(a, got) && |got| == 3 && a < RAM_WORDS
    ensures Receive(chip, bit) == chip.(ram := chip.ram[a := Nibble(got[0], got[1], got[2], bit)],
                                        session := Words((a + 1) % RAM_WORDS, []))
  {
  }

  lemma WordEnd(chip: Chip, bits: seq<bool>)
    requires chip.session.Words? && chip.session.got == [] && chip.session.addr < RAM_WORDS && |bits| == 4
    ensures ReceiveAll(chip, bits) ==
            chip.(ram := chip.ram[chip.session.addr := Nibble(bits[0], bits[1], bits[2], bits[3])],
                  session := Words((chip.session.addr + 1) % RAM_WORDS, []))
  {
    hide Nibble, Receive;
    WordPrefix(chip, bits[..3]);
    FourthBit(chip.(session := Words(chip.session.addr, bits[..3])), chip.session.addr, bits[..3], bits[3]);
  }

  /** Four data bits, least significant first, store one word and step the address. */
  lemma WordBits(chip: Chip, cell: bv8)
    requires chip.session.Words? && chip.session.got == [] && chip.session.addr < 128
    ensures ReceiveAll(chip, Lsb4(cell)) ==
            chip.(ram := chip.ram[chip.session.addr := cell & 0xF],
                  session := Words((chip.session.addr + 1) % 128, []))
  {
    WordEnd(chip, Lsb4(cell));
    NibbleRoundTrip(cell);
  }

  lemma {:induction false} CommandPrefix(chip: Chip, bits: seq<bool>)
    requires chip.session == Commands([]) && |bits| < 9
    ensures ReceiveAll(chip, bits) == chip.(session := Commands(bits))
  {
    if bits != [] {
      CommandPrefix(chip, bits[..|bits| - 1]);
      assert bits[..|bits| - 1] + [bits[|bits| - 1]] == bits;
    }
  }

  lemma CommandEnd(chip: Chip, bits: seq<bool>, idle: bool)
    requires chip.session == Commands([]) && |bits| == 8
    ensures ReceiveAll(chip, bits + [idle]) == chip.(config := Execute(chip.config, FromMsb(bits)))
  {
    CommandPrefix(chip, bits);
    assert (bits + [idle])[..8] == bits;
  }

  /** Eight command bits and the idle bit execute one command. */
  lemma CommandBits(chip: Chip, op: nat, len: nat, idle: bool)
    requires chip.session == Commands([]) && op < 256 && len == 8
    ensures ReceiveAll(chip, Msb(op, len) + [idle]) == chip.(config := Execute(chip.config, op))
  {
    assert FromMsb(Msb(op, len)) == op by {
      MsbRoundTrip(op, len);
      PowersOfTwo();
    }
    CommandEnd(chip, Msb(op, len), idle);
  }

  // ---------------------------------------------------------------- selection

  ghost predicate NoneSelected(b: Board) {
    forall i :: 0 <= i < |b.chain| ==> b.chain[i]
  }

  /** A WR edge is stray unless exactly one of the select bits is low. */
  lemma StrayEdges(b: Board, w: Wires)
    ensures Stray(b, w) <==>
              && !b.wires.wr && w.wr
              && forall k :: 0 <= k < |b.chain| && !b.chain[k] ==> exists i :: 0 <= i < |b.chain| && i != k && !b.chain[i]
  {
    forall k | 0 <= k < |b.chain| && !b.chain[k]
      ensures Only(b, k) || exists i :: 0 <= i < |b.chain| && i != k && !b.chain[i]
    {
    }
    forall k | Only(b, k)
      ensures 0 <= k < |b.chain| && !b.chain[k] && forall i :: 0 <= i < |b.chain| && i != k ==> b.chain[i]
    {
    }
  }

  /** WR and CLK are low, so the next high level on either is an edge. */
  ghost predicate Settled(b: Board) {
    |b.chain| == |b.chips| > 0 && !b.wires.wr && !b.wires.clk
  }

  ghost predicate AllReset(chips: seq<Chip>) {
    forall k :: 0 <= k < |chips| ==> chips[k].session == START
  }

  function ResetAll(chips: seq<Chip>): (r: seq<Chip>)
    ensures |r| == |chips| && AllReset(r)
    ensures forall k :: 0 <= k < |chips| ==> r[k] == Reset(chips[k])
  {
    seq(|chips|, k requires 0 <= k < |chips| => Reset(chips[k]))
  }

  /** Since `b0`, chip k + 1 has heard `bits` and nothing else has changed. */
  ghost predicate Heard(b0: Board, b: Board, k: nat, bits: seq<bool>) {
    && Settled(b) && b.chain == b0.chain
    && k < |b0.chips|
    && b.chips == b0.chips[k := ReceiveAll(b0.chips[k], bits)]
  }

  lemma HeardNothing(b0: Board, k: nat)
    requires Settled(b0) && k < |b0.chips|
    ensures Heard(b0, b0, k, [])
  {
  }

  lemma HeardMore(b0: Board, b1: Board, b2: Board, k: nat, a: seq<bool>, b: seq<bool>)
    requires Heard(b0, b1, k, a) && Heard(b1, b2, k, b)
    ensures Heard(b0, b2, k, a + b)
  {
    ReceiveAppend(b0.chips[k], a, b);
    assert b1.chips[k] == ReceiveAll(b0.chips[k], a);
  }

  lemma HeardPrefix(b0: Board, b1: Board, b2: Board, k: nat, bits: seq<bool>, i: nat)
    requires i < |bits| && Heard(b0, b1, k, bits[..i]) && Heard(b1, b2, k, [bits[i]])
    ensures Heard(b0, b2, k, bits[..i + 1])
  {
    HeardMore(b0, b1, b2, k, bits[..i], [bits[i]]);
    assert bits[..i] + [bits[i]] == bits[..i + 1];
  }

  /** DATA takes a level and WR pulses: chip k + 1 hears the bit and nothing else changes. */
  lemma ClockedBit(b: Board, k: nat, bit: bool)
    requires Settled(b) && Only(b, k)
    ensures Heard(b, Drive(Drive(Drive(b, DATA, bit), WR, true), WR, false), k, [bit])
  {
    var up := Drive(Drive(b, DATA, bit), WR, true);
    assert [bit][..0] == [];
    assert ReceiveAll(b.chips[k], [bit]) == Receive(b.chips[k], bit);
    assert up.chips == b.chips[k := Receive(b.chips[k], bit)];
  }

  /** CLK pulses: the chain takes the level of CS at its near end. */
  ghost predicate PulsedBy(b: Board, after: Board) {
    && Settled(b) && Settled(after)
    && after.wires.cs == b.wires.cs
    && after.chain == [b.wires.cs] + b.chain[..|b.chain| - 1]
    && |after.chips| == |b.chips|
    && (forall k :: 0 <= k < |b.chips| ==>
          after.chips[k] == if after.chain[k] then Reset(b.chips[k]) else b.chips[k])
  }

  lemma Pulsed(b: Board)
    requires Settled(b)
    ensures PulsedBy(b, Drive(Drive(b, CLK, true), CLK, false))
  {
  }

  /** After t pulses with CS at a fixed level: the near end of the chain carries that
      level, and the chips have kept everything but their sessions. */
  ghost predicate Flushed(b0: Board, b: Board, t: nat, cs: bool) {
    && Settled(b) && b.wires.cs == cs
    && |b.chips| == |b0.chips| && t <= |b.chain|
    && (forall k :: 0 <= k < t ==> b.chain[k] == cs)
    && (cs ==> forall k :: 0 <= k < t ==> b.chips[k].session == START)
    && (forall k :: 0 <= k < |b.chips| ==> Reset(b.chips[k]) == Reset(b0.chips[k]))
  }

  lemma FlushedMore(b0: Board, b: Board, after: Board, t: nat, cs: bool)
    requires t < |b.chain| && Flushed(b0, b, t, cs) && PulsedBy(b, after)
    ensures Flushed(b0, after, t + 1, cs)
  {
  }

  lemma FlushedAll(b0: Board, b: Board)
    requires Flushed(b0, b, |b.chain|, true)
    ensures NoneSelected(b) && b.chips == ResetAll(b0.chips)
  {
    forall k | 0 <= k < |b.chips|
      ensures b.chips[k] == ResetAll(b0.chips)[k]
    {
      assert Reset(b.chips[k]) == b.chips[k];
    }
  }

  /** Chip k + 1 is the one selected, CS is high again, and every chip is reset. */
  ghost predicate Reached(b0: Board, b: Board, k: nat) {
    Settled(b) && b.wires.cs && Only(b, k) && b.chips == ResetAll(b0.chips)
  }

  /** A low level clocked into an all-high chain selects the first chip. */
  lemma ReachedFirst(b0: Board, b: Board, low: Board, after: Board, high: Board)
    requires Settled(b) && NoneSelected(b) && b.chips == ResetAll(b0.chips)
    requires low == Drive(b, CS, false) && PulsedBy(low, after) && high == Drive(after, CS, true)
    ensures Reached(b0, high, 0)
  {
    assert forall k :: 0 <= k < |b.chips| ==> Reset(b.chips[k]) == b.chips[k];
    assert after.chips == b.chips;
  }

  lemma ReachedNext(b0: Board, b: Board, after: Board, k: nat)
    requires k + 1 < |b.chain| && Reached(b0, b, k) && PulsedBy(b, after)
    ensures Reached(b0, after, k + 1)
  {
    assert forall i :: 0 <= i < |b.chips| ==> Reset(b.chips[i]) == b.chips[i];
    assert after.chips == b.chips;
  }

  /** Chip k + 1 is the one selected, or none is when the low level has left the chain. */
  ghost predicate Passed(b0: Board, b: Board, k: nat) {
    if k < |b.chain| then Reached(b0, b, k)
    else Settled(b) && b.wires.cs && NoneSelected(b) && b.chips == ResetAll(b0.chips)
  }

  lemma PassedNext(b0: Board, b: Board, after: Board, k: nat)
    requires Passed(b0, b, k) && PulsedBy(b, after)
    ensures Passed(b0, after, k + 1)
  {
    if k + 1 < |b.chain| {
      ReachedNext(b0, b, after, k);
    } else {
      assert forall i :: 0 <= i < |b.chips| ==> Reset(b.chips[i]) == b.chips[i];
      assert after.chips == b.chips;
    }
  }

  // ---------------------------------------------------------------- commands

  function Obeyed(chip: Chip, op: nat): Chip {
    chip.(config := Execute(chip.config, op))
  }

  /** Since `b0`, chip k + 1 has become `chip` and nothing else has changed. */
  ghost predicate Became(b0: Board, b: Board, k: nat, chip: Chip) {
    && Settled(b) && b.chain == b0.chain
    && k < |b0.chips|
    && b.chips == b0.chips[k := chip]
  }

  lemma BecameCommanded(b0: Board, b: Board, k: nat, id: nat, len: nat)
    requires k < |b0.chips| && b0.chips[k].session == START
    requires id == 4 && len == 3 && Heard(b0, b, k, Msb(id, len))
    ensures Became(b0, b, k, b0.chips[k].(session := Commands([])))
  {
    IdBits(id, len);
    HeaderBits(b0.chips[k], Msb(id, len));
  }

  lemma IdBits(id: nat, len: nat)
    requires len == 3 && id < 8
    ensures Msb(id, len) == [id / 4 % 2 == 1, id / 2 % 2 == 1, id % 2 == 1]
  {
  }

  lemma BecameObedient(b0: Board, b1: Board, b2: Board, k: nat, chip: Chip, op: nat, len: nat)
    requires Became(b0, b1, k, chip) && chip.session == Commands([])
    requires op < 256 && len == 8 && Heard(b1, b2, k, Msb(op, len) + [false])
    ensures Became(b0, b2, k, Obeyed(chip, op))
  {
    CommandBits(chip, op, len, false);
    assert b1.chips[k] == chip;
  }
}
