/** The LED strip: one frame, two transports, the same bits on the wire. */
module Strip {

  const BYTES_PER_LED: nat := 3
  const OFF: bv8 := 0x80

  // ---------------------------------------------------------------- bits of bytes

  /** The eight bits of a byte, most significant first. */
  function ByteBits(p: bv8): (bits: seq<bool>)
    ensures |bits| == 8
  {
    [p & 0x80 != 0, p & 0x40 != 0, p & 0x20 != 0, p & 0x10 != 0, p & 8 != 0, p & 4 != 0, p & 2 != 0, p & 1 != 0]
  }

  function Bits(bytes: seq<bv8>): (bits: seq<bool>)
    ensures |bits| == 8 * |bytes|
  {
    if bytes == [] then [] else Bits(bytes[..|bytes| - 1]) + ByteBits(bytes[|bytes| - 1])
  }

  /** Bit 7 of the first byte comes first, bit 0 of the last byte last. */
  lemma {:induction false} BitsOfBytes(bytes: seq<bv8>, i: nat, k: nat)
    requires i < |bytes| && k < 8
    ensures Bits(bytes)[8 * i + k] <==> bytes[i] & [0x80, 0x40, 0x20, 0x10, 8, 4, 2, 1][k] != 0
  {
    hide ByteBits;
    if i < |bytes| - 1 {
      BitsOfBytes(bytes[..|bytes| - 1], i, k);
    } else {
      BitsOfByte(bytes[i], k);
    }
  }

  lemma BitsOfByte(p: bv8, k: nat)
    requires k < 8
    ensures ByteBits(p)[k] <==> p & [0x80, 0x40, 0x20, 0x10, 8, 4, 2, 1][k] != 0
  {
  }

  function Zeros(n: nat): (s: seq<bv8>)
    ensures |s| == n
  {
    seq(n, _ => 0)
  }

  function Lows(n: nat): (s: seq<bool>)
    ensures |s| == n
  {
    seq(n, _ => false)
  }

  lemma {:induction false} BitsAppend(a: seq<bv8>, b: seq<bv8>)
    ensures Bits(a + b) == Bits(a) + Bits(b)
  {
    if b == [] {
      assert a + b == a;
    } else {
      assert (a + b)[..|a + b| - 1] == a + b[..|b| - 1];
      BitsAppend(a, b[..|b| - 1]);
    }
  }

  lemma BitsNext(bytes: seq<bv8>, k: nat)
    requires k < |bytes|
    ensures Bits(bytes[..k + 1]) == Bits(bytes[..k]) + ByteBits(bytes[k])
  {
    assert bytes[..k + 1][..k] == bytes[..k];
  }

  lemma {:induction false} BitsOfZeros(n: nat)
    ensures Bits(Zeros(n)) == Lows(8 * n)
  {
    if n > 0 {
      assert Zeros(n)[..n - 1] == Zeros(n - 1);
      BitsOfZeros(n - 1);
    }
  }

  /** The bytes that a receiver reads off the wire, eight bits at a time. */
  function BytesOf(bits: seq<bool>): seq<bv8>
    requires |bits| % 8 == 0
  {
    if bits == [] then []
    else BytesOf(bits[..|bits| - 8]) + [ByteOf(bits[|bits| - 8..])]
  }

  function ByteOf(b: seq<bool>): bv8
    requires |b| == 8
  {
    (if b[0] then 0x80 else 0) | (if b[1] then 0x40 else 0) | (if b[2] then 0x20 else 0) | (if b[3] then 0x10 else 0) |
    (if b[4] then 8 else 0) | (if b[5] then 4 else 0) | (if b[6] then 2 else 0) | (if b[7] then 1 else 0)
  }

  lemma ByteRoundTrip(p: bv8)
    ensures ByteOf(ByteBits(p)) == p
  {
  }

  lemma ReadLast(bits: seq<bool>, front: seq<bool>, last: bv8)
    requires |front| % 8 == 0 && bits == front + ByteBits(last)
    ensures BytesOf(bits) == BytesOf(front) + [last]
  {
    hide ByteBits, ByteOf;
    assert bits[..|bits| - 8] == front && bits[|bits| - 8..] == ByteBits(last);
    ByteRoundTrip(last);
  }

  /** What was sent byte by byte is read back byte by byte. */
  lemma {:induction false} BytesRoundTrip(bytes: seq<bv8>)
    ensures BytesOf(Bits(bytes)) == bytes
  {
    hide BytesOf, Bits;
    if bytes == [] {
      NothingRead();
    } else {
      var front, last := bytes[..|bytes| - 1], bytes[|bytes| - 1];
      BytesRoundTrip(front);
      NextByteRead(front, last);
      assert front + [last] == bytes;
    }
  }

  lemma NothingRead()
    ensures BytesOf(Bits([])) == []
  {
  }

  lemma NextByteRead(front: seq<bv8>, last: bv8)
    ensures BytesOf(Bits(front + [last])) == BytesOf(Bits(front)) + [last]
  {
    hide BytesOf, ByteBits;
    assert (front + [last])[..|front|] == front;
    ReadLast(Bits(front + [last]), Bits(front), last);
  }

  // ---------------------------------------------------------------- the wire

  datatype StripPin = DATA | CLOCK

  /** The two lines of the strip. `sampled` is what the strip has read: the level of the
      data line at each rising edge of the clock line. */
  class Wire {
    var data: bool
    var clock: bool
    ghost var sampled: seq<bool>

    constructor ()
      ensures !data && !clock && sampled == []
    {
      data, clock, sampled := false, false, [];
    }

    method Write(pin: StripPin, high: bool)
      modifies this
      ensures pin == DATA ==> data == high && clock == old(clock) && sampled == old(sampled)
      ensures pin == CLOCK ==> clock == high && data == old(data)
      ensures pin == CLOCK ==> sampled == if high && !old(clock) then old(sampled) + [data] else old(sampled)
    {
      if pin == DATA {
        data := high;
      } else {
        if high && !clock {
          sampled := sampled + [data];
        }
        clock := high;
      }
    }

    /** A serial controller clocks whole bytes out, most significant bit first. */
    method Transfer(bytes: seq<bv8>)
      modifies this
      ensures sampled == old(sampled) + Bits(bytes) && clock == old(clock)
    {
      sampled := sampled + Bits(bytes);
    }
  }

  // ---------------------------------------------------------------- frames

  /** One latch byte for every 32 LEDs begun. */
  function LatchBytes(leds: nat): (n: nat)
    ensures 32 * n - 32 < leds <= 32 * n
  {
    (leds + 31) / 32
  }

  /** How many pixel bytes the bit-banged loop sends: its counter has 16 bits. */
  function CountedBytes(leds: nat): nat { leds * BYTES_PER_LED % 0x1_0000 }

  /** The bytes of one frame, as the serial transport sends them. */
  function FrameBytes(pixels: seq<bv8>, leds: nat): seq<bv8> {
    pixels + Zeros(LatchBytes(leds))
  }

  /** After `before` come the bits of `bytes`, and then low bits only: eight for every 32
      LEDs begun. */
  ghost predicate Latched(before: seq<bool>, after: seq<bool>, bytes: seq<bv8>, leds: nat) {
    var from := |before| + 8 * |bytes|;
    && from <= |after| && after[..from] == before + Bits(bytes)
    && (forall i :: from <= i < |after| ==> !after[i])
    && var latch := (|after| - from) / 8;
    && |after| == from + 8 * latch && 32 * (latch - 1) < leds <= 32 * latch
  }

  lemma LatchBits(before: seq<bool>, bytes: seq<bv8>, leds: nat)
    ensures Latched(before, before + Bits(FrameBytes(bytes, leds)), bytes, leds)
    ensures Latched(before, before + (Bits(bytes) + Lows(LatchBytes(leds) * 8)), bytes, leds)
    ensures Latched(before, before + Bits(bytes) + Lows(LatchBytes(leds) * 8), bytes, leds)
  {
    hide Bits;
    BitsAppend(bytes, Zeros(LatchBytes(leds)));
    BitsOfZeros(LatchBytes(leds));
    var low := Lows(LatchBytes(leds) * 8);
    assert before + (Bits(bytes) + low) == before + Bits(bytes) + low;
  }

  lemma LatchAlone(before: seq<bool>, leds: nat)
    ensures Latched(before, before + Lows(LatchBytes(leds) * 8), [], leds)
  {
    LatchBits(before, [], leds);
    assert Bits([]) == [] && before + [] == before;
  }

  /** What the bit-banged transport puts on the wire for one frame. */
  function BangedBits(pixels: seq<bv8>, leds: nat): seq<bool>
    requires |pixels| == leds * BYTES_PER_LED
  {
    Bits(pixels[..CountedBytes(leds)]) + Lows(LatchBytes(leds) * 8)
  }

  /** The two transports agree exactly as long as the 16-bit byte count does not wrap. */
  lemma TransportsAgree(pixels: seq<bv8>, leds: nat)
    requires |pixels| == leds * BYTES_PER_LED && leds < 0x1_0000
    ensures BangedBits(pixels, leds) == Bits(FrameBytes(pixels, leds)) <==> leds <= 21845
  {
    BitsAppend(pixels, Zeros(LatchBytes(leds)));
    BitsOfZeros(LatchBytes(leds));
    if leds <= 21845 {
      assert pixels[..CountedBytes(leds)] == pixels;
    } else {
      assert |BangedBits(pixels, leds)| < |Bits(FrameBytes(pixels, leds))|;
    }
  }

  /** A frame is the pixel bytes and the latch, on either transport; but only the first
      3 * leds - 65536 bytes, or 3 * leds - 131072, of one that is too long for the loop. */
  lemma FramesLatched(before: seq<bool>, pixels: seq<bv8>, leds: nat)
    requires |pixels| == 3 * leds && leds < 0x1_0000
    ensures Latched(before, before + Bits(FrameBytes(pixels, leds)), pixels, leds)
    ensures Latched(before, before + BangedBits(pixels, leds), if leds <= 21845 then pixels else pixels[..3 * leds % 0x1_0000], leds)
  {
    hide Latched, Bits, Lows, LatchBytes;
    var sent := pixels[..CountedBytes(leds)];
    assert leds <= 21845 ==> sent == pixels;
    LatchBits(before, pixels, leds);
    LatchBits(before, sent, leds);
  }

  // ---------------------------------------------------------------- colours

  /** Separate components packed green, red, blue, each with its high bit set. */
  function Color(r: bv8, g: bv8, b: bv8): bv32 {
    ((g | OFF) as bv32 << 16) | ((r | OFF) as bv32 << 8) | (b as bv32) | 0x80
  }

  function PackedBytes(c: bv32): seq<bv8> {
    [((c >> 16) & 0xFF) as bv8 | OFF, ((c >> 8) & 0xFF) as bv8 | OFF, (c & 0xFF) as bv8 | OFF]
  }

  /** Green is on top of a packed colour, then comes red, then blue. */
  lemma ColorPlaces(r: bv8, g: bv8, b: bv8)
    ensures Color(r, g, b) >> 16 == (g | 0x80) as bv32
    ensures (Color(r, g, b) >> 8) & 0xFF == (r | 0x80) as bv32
    ensures Color(r, g, b) & 0xFF == (b | 0x80) as bv32
  {
  }

  /** A packed colour carries the same three bytes as its components. */
  lemma ColorBytes(r: bv8, g: bv8, b: bv8)
    ensures PackedBytes(Color(r, g, b)) == [g | OFF, r | OFF, b | OFF]
  {
  }

  // ---------------------------------------------------------------- the strip

  class LPD8806 {
    const wire: Wire
    const serial: bool             // a serial controller drives the wire
    var numLEDs: nat
    var largestChangedLed: nat
    var pixels: array<bv8>
    var begun: bool

    /** Every data byte has its high bit set, so only the latch bytes can latch. */
    ghost predicate Valid()
      reads this, pixels
    {
      && numLEDs < 0x1_0000
      && pixels.Length == numLEDs * BYTES_PER_LED
      && (numLEDs > 0 ==> largestChangedLed < numLEDs)
      && forall k :: 0 <= k < pixels.Length ==> pixels[k] & 0x80 != 0
    }

    constructor (wire: Wire, serial: bool, n: nat)
      requires n < 0x1_0000
      ensures Valid() && fresh(pixels) && this.wire == wire && this.serial == serial
      ensures numLEDs == n && pixels[..] == seq(3 * n, _ => 0x80) && !begun
    {
      this.wire, this.serial, numLEDs, begun := wire, serial, n, false;
      largestChangedLed := if n > 0 then n - 1 else 0;
      pixels := new bv8[n * BYTES_PER_LED](_ => OFF);
    }

    method UpdateLength(n: nat)
      requires n < 0x1_0000
      modifies this
      ensures Valid() && fresh(pixels) && begun == old(begun)
      ensures numLEDs == n && pixels[..] == seq(3 * n, _ => 0x80)
    {
      numLEDs := n;
      largestChangedLed := if n > 0 then n - 1 else 0;
      pixels := new bv8[n * BYTES_PER_LED](_ => OFF);
    }

    method Begin()
      requires Valid()
      modifies this`begun, wire
      ensures Valid() && begun && wire.clock == (serial && old(wire.clock))
      ensures wire.sampled == old(wire.sampled) + Bits(Zeros(LatchBytes(numLEDs)))
      ensures Latched(old(wire.sampled), wire.sampled, [], numLEDs)
    {
      hide Latched, Bits, Zeros, Lows, LatchBytes;
      BitsOfZeros(LatchBytes(numLEDs));
      LatchAlone(wire.sampled, numLEDs);
      if serial {
        TransferSpiLatch();
      } else {
        wire.Write(DATA, false);
        wire.Write(CLOCK, false);
        BitBangLatchSignal();
      }
      begun := true;
    }

    method TransferSpiLatch()
      modifies wire
      ensures wire.sampled == old(wire.sampled) + Bits(Zeros(LatchBytes(numLEDs))) && wire.clock == old(wire.clock)
    {
      var latch := Zeros(LatchBytes(numLEDs));
      if |latch| > 0 {
        wire.Transfer(latch);
      }
    }

    method BitBangLatchSignal()
      requires !wire.clock
      modifies wire
      ensures !wire.clock && wire.sampled == old(wire.sampled) + Lows(LatchBytes(numLEDs) * 8)
    {
      wire.Write(DATA, false);
      var i := LatchBytes(numLEDs) * 8;
      while i > 0
        invariant 0 <= i <= LatchBytes(numLEDs) * 8
        invariant !wire.clock && !wire.data
        invariant wire.sampled == old(wire.sampled) + Lows(LatchBytes(numLEDs) * 8 - i)
      {
        wire.Write(CLOCK, true);
        wire.Write(CLOCK, false);
        i := i - 1;
      }
    }

    /** Clocks one byte out, leaving the data line alone while it already has the level;
        `cached` is that level, or -1 when it is not known. */
    method SendByte(p: bv8, cached: int, ghost bits: seq<bool>) returns (level: int)
      requires !wire.clock
      requires cached == -1 || cached == (if wire.data then 1 else 0)
      requires |bits| == 8 && forall k :: 0 <= k < 8 ==> bits[k] == Picks(p, BitAt(k))
      modifies wire
      ensures !wire.clock && level == (if wire.data then 1 else 0)
      ensures wire.sampled == old(wire.sampled) + bits
    {
      assert BitAt(0) == 0x80;
      hide BitAt, Picks, Half;
      level := cached;
      var bit: bv8 := 0x80;
      ghost var k := 0;
      while bit != 0
        invariant 0 <= k <= 8 && bit == BitAt(k) && (bit == 0 <==> k == 8)
        invariant !wire.clock
        invariant level == (if wire.data then 1 else 0) || (k == 0 && level == -1)
        invariant wire.sampled == old(wire.sampled) + bits[..k]
        decreases 8 - k
      {
        level := SendBit(Picks(p, bit), level);
        assert bits[..k + 1] == bits[..k] + [Picks(p, bit)];
        NextBit(k);
        bit := Half(bit);
        k := k + 1;
      }
      assert bits[..8] == bits;
    }

    method SendBit(high: bool, cached: int) returns (level: int)
      requires !wire.clock
      requires cached == -1 || cached == (if wire.data then 1 else 0)
      modifies wire
      ensures !wire.clock && level == (if wire.data then 1 else 0)
      ensures wire.sampled == old(wire.sampled) + [high]
    {
      level := cached;
      if high {
        if level != 1 {
          wire.Write(DATA, true);
          level := 1;
        }
      } else {
        if level != 0 {
          wire.Write(DATA, false);
          level := 0;
        }
      }
      wire.Write(CLOCK, true);
      wire.Write(CLOCK, false);
    }

    /** One frame. */
    method Show()
      requires Valid() && (serial || !wire.clock)
      modifies this`largestChangedLed, wire
      ensures Valid() && wire.clock == old(wire.clock)
      ensures numLEDs == 0 ==> wire.sampled == old(wire.sampled)
      ensures numLEDs > 0 && serial ==> wire.sampled == old(wire.sampled) + Bits(FrameBytes(pixels[..], numLEDs))
      ensures numLEDs > 0 && !serial ==> wire.sampled == old(wire.sampled) + BangedBits(pixels[..], numLEDs)
      ensures numLEDs > 0 && (serial || numLEDs <= 21845) ==> Latched(old(wire.sampled), wire.sampled, pixels[..], numLEDs)
      ensures numLEDs > 21845 && !serial ==> Latched(old(wire.sampled), wire.sampled, pixels[..][..3 * numLEDs % 0x1_0000], numLEDs)
    {
      if numLEDs == 0 {
        return;
      }
      hide Latched, Bits, Zeros, BangedBits, LatchBytes;
      FramesLatched(wire.sampled, pixels[..], numLEDs);
      if serial {
        wire.Transfer(pixels[..] + Zeros(LatchBytes(numLEDs)));
        largestChangedLed := 0;
        return;
      }
      BangFrame();
      largestChangedLed := 0;
    }

    method BangFrame()
      requires Valid() && !wire.clock
      modifies wire
      ensures !wire.clock && wire.sampled == old(wire.sampled) + BangedBits(pixels[..], numLEDs)
    {
      hide Bits, Lows, LatchBytes;
      SendPixels();
      BitBangLatchSignal();
    }

    /** The loop over the pixel bytes, whose counter is 16 bits wide. */
    method SendPixels()
      requires Valid() && !wire.clock
      modifies wire
      ensures !wire.clock && wire.sampled == old(wire.sampled) + Bits(pixels[..][..CountedBytes(numLEDs)])
    {
      assert Bits(pixels[..][..0]) == [];
      hide Bits, ByteBits;
      var i := numLEDs * BYTES_PER_LED % 0x1_0000;
      var ptr := 0;
      var currDatapinValue := -1;
      while i > 0
        invariant 0 <= i && ptr + i == CountedBytes(numLEDs) && 0 <= ptr
        invariant !wire.clock
        invariant currDatapinValue == -1 || currDatapinValue == (if wire.data then 1 else 0)
        invariant wire.sampled == old(wire.sampled) + Bits(pixels[..][..ptr])
        decreases i
      {
        i := i - 1;
        currDatapinValue := SendPixelByte(ptr, currDatapinValue);
        BitsNext(pixels[..], ptr);
        ptr := ptr + 1;
      }
    }

    method SendPixelByte(ptr: nat, cached: int) returns (level: int)
      requires !wire.clock && ptr < pixels.Length
      requires cached == -1 || cached == (if wire.data then 1 else 0)
      modifies wire
      ensures !wire.clock && level == (if wire.data then 1 else 0)
      ensures wire.sampled == old(wire.sampled) + ByteBits(pixels[ptr])
    {
      hide ByteBits, BitAt, Picks;
      BitsByMask(pixels[ptr]);
      level := SendByte(pixels[ptr], cached, ByteBits(pixels[ptr]));
    }

    method SetPixelColor(n: nat, r: bv8, g: bv8, b: bv8)
      requires Valid()
      modifies this`largestChangedLed, pixels
      ensures Valid()
      ensures pixels[..] == WithLed(old(pixels[..]), n, [g | OFF, r | OFF, b | OFF])
    {
      if n < numLEDs {
        HighBits(r, g, b);
        var p := n * BYTES_PER_LED;
        pixels[p] := g | OFF;
        pixels[p + 1] := r | OFF;
        pixels[p + 2] := b | OFF;
        if n > largestChangedLed {
          largestChangedLed := n;
        }
      }
    }

    method SetPackedColor(n: nat, c: bv32)
      requires Valid()
      modifies this`largestChangedLed, pixels
      ensures Valid()
      ensures pixels[..] == WithLed(old(pixels[..]), n, PackedBytes(c))
    {
      if n < numLEDs {
        var bytes := PackedBytes(c);
        HighBits(((c >> 8) & 0xFF) as bv8, ((c >> 16) & 0xFF) as bv8, (c & 0xFF) as bv8);
        var p := n * BYTES_PER_LED;
        pixels[p] := bytes[0];
        pixels[p + 1] := bytes[1];
        pixels[p + 2] := bytes[2];
        if n > largestChangedLed {
          largestChangedLed := n;
        }
      }
    }

    method ClearPixelColors()
      requires Valid()
      modifies this`largestChangedLed, pixels
      ensures Valid() && pixels[..] == seq(3 * numLEDs, _ => 0x80)
    {
      if numLEDs == 0 {
        largestChangedLed := 0;
        return;
      }
      forall k | 0 <= k < pixels.Length {
        pixels[k] := OFF;
      }
      largestChangedLed := numLEDs - 1;
    }

    method GetPixelColor(n: nat) returns (r: bv8, g: bv8, b: bv8)
      requires Valid()
      ensures (r, g, b) == LedColor(pixels[..], n)
    {
      if n < numLEDs {
        var p := n * BYTES_PER_LED;
        g, r, b := pixels[p] & 0x7F, pixels[p + 1] & 0x7F, pixels[p + 2] & 0x7F;
      } else {
        r, g, b := 0, 0, 0;
      }
    }
  }

  predicate Picks(p: bv8, bit: bv8) { p & bit != 0 }

  function Half(bit: bv8): bv8 { bit >> 1 }

  /** The mask of bit k, counted from the most significant end. */
  function BitAt(k: nat): bv8
    requires k <= 8
  {
    if k == 0 then 0x80 else if k == 1 then 0x40 else if k == 2 then 0x20 else if k == 3 then 0x10
    else if k == 4 then 8 else if k == 5 then 4 else if k == 6 then 2 else if k == 7 then 1 else 0
  }

  lemma NextBit(k: nat)
    requires k < 8
    ensures BitAt(k + 1) == Half(BitAt(k))
    ensures BitAt(k + 1) == 0 <==> k + 1 == 8
  {
  }

  lemma BitsByMask(p: bv8)
    ensures forall k :: 0 <= k < 8 ==> ByteBits(p)[k] == Picks(p, BitAt(k))
  {
  }

  lemma HighBits(r: bv8, g: bv8, b: bv8)
    ensures (r | 0x80) & 0x80 != 0 && (g | 0x80) & 0x80 != 0 && (b | 0x80) & 0x80 != 0
  {
  }

  /** The three bytes of LED n replaced; an LED past the end is ignored. */
  function WithLed(pixels: seq<bv8>, n: nat, bytes: seq<bv8>): (r: seq<bv8>)
    requires |pixels| % 3 == 0 && |bytes| == 3
    ensures |r| == |pixels|
  {
    if 3 * n < |pixels| then pixels[3 * n := bytes[0]][3 * n + 1 := bytes[1]][3 * n + 2 := bytes[2]] else pixels
  }

  lemma WithLedBytes(pixels: seq<bv8>, n: nat, bytes: seq<bv8>, k: nat)
    requires |pixels| % 3 == 0 && |bytes| == 3 && k < |pixels|
    ensures WithLed(pixels, n, bytes)[k] == if k / 3 == n then bytes[k % 3] else pixels[k]
  {
    assert k == 3 * (k / 3) + k % 3;
  }

  /** Red, green and blue of LED n, seven bits each; black past the end. */
  function LedColor(pixels: seq<bv8>, n: nat): (bv8, bv8, bv8)
    requires |pixels| % 3 == 0
  {
    if 3 * n < |pixels| then (pixels[3 * n + 1] & 0x7F, pixels[3 * n] & 0x7F, pixels[3 * n + 2] & 0x7F) else (0, 0, 0)
  }

  lemma SevenBits(v: bv8)
    ensures (v | 0x80) & 0x7F == v & 0x7F
  {
  }

  /** Reading an LED gives back the seven low bits of what was set, and setting one LED
      leaves the colour of every other. */
  lemma SetThenGet(pixels: seq<bv8>, n: nat, m: nat, r: bv8, g: bv8, b: bv8)
    requires |pixels| % 3 == 0
    ensures LedColor(WithLed(pixels, n, [g | 0x80, r | 0x80, b | 0x80]), m) ==
            if m == n && 3 * n < |pixels| then (r & 0x7F, g & 0x7F, b & 0x7F) else LedColor(pixels, m)
  {
    SevenBits(r);
    SevenBits(g);
    SevenBits(b);
  }
}
