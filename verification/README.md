# oclock, modelled and proved in Dafny

The clock drives an HT1632 LED matrix and an LPD8806 LED strip, and around them runs a
process of seven threads with timers, a dictionary of values that time out, inboxes, a web
form decoder and a JSON status report. This project models the parts with the most state
and the most arithmetic, and proves what they are for.

| file | what it holds |
|---|---|
| Panel | the receiver: the select chain and the HT1632 chips, decoding WR and CLK edges |
| Protocol | what strings of edges mean to the receiver |
| Gpio | per-pin writes, SET and CLEAR register stores, and why they are the same |
| Geometry | the map from pixels to cells |
| Picture, Lettering | setPixel, drawImage and drawText as functions of cells, and pixel by pixel |
| Paint | dirty tracking, write sessions, and the invariant between calls |
| Canvas | the display as its callers think of it: sets of lit pixels |
| HT1632 | the driver, with its buffers, flags and pins updated in place |
| Client | runs of calls, and the end-to-end theorem |
| Strip | the LPD8806 strip and its two transports |
| Timers | the tick-driven timer registry |
| Dictionary, TimedMap | the lazily expiring map, and the timed map it cannot be told from |
| Inboxes, Shutdown | the inboxes, and start-up and shutdown of the threads as a state machine |
| Form | the form decoder with its shared buffer |
| Decimal, Json, StatusReport | load averages, the JSON printer and a reader for its output |
| CStrings, Wrappers | strings that end at a zero, and optional values |

How the pieces fit:

- The display. `Panel` and `Canvas` are the two ends, and neither knows the driver: `Panel`
  says from the data sheet and the wiring when an LED is lit (`Glows`), and `Canvas` what a
  call draws. `HT1632` is the driver with the source's branches and loops; a loop body of
  the source is a method of its own where that keeps the proof small. Ghost parameters (`k`,
  `b0`, `cells`) name the chip that is meant to listen and the state a step started from.
  `Client.EndToEnd` joins the ends for every sequence of calls.
- Small functions that several sides share have their meaning fixed by a contract or a lemma
  of their own, in numbers: `GlyphOf`, `CoveredPixels`, `ChipAndWord`, `Period`, `LiveIsAge`,
  `LessExactly`, `LatchBytes`, `PercentMeans`, `EscapeTable` and their like.
- At each WR edge exactly one chip listens: `Device.strayed` records any other edge, and it
  is false after every run. It is the intended chip: every write needs `Only(board, k)`, and
  `Heard` says that only chip k has changed.
- The strip, the timers, the dictionary and the inboxes are classes with the source's
  fields. The specification functions beside them (`FrameBytes`, `Step`, `LiveView`, ...)
  are what the theorems are about, and the methods' postconditions tie the fields to them.
- Concurrency is modelled in steps of the size of a mutex-held block. In `Shutdown` the wake
  services of the polling workers count down as `Timers` says, so how long a join can take
  is measured in turns of the timer thread.

What the source says and what it does:

- `ht1632/HT1632.h` says that every transition but the swap renders by itself and loses the
  board's contents. The code renders only in the fade. The model follows the code.
- drawImage is not an exact blit for some heights that are not in whole nibbles: it can
  write padding rows or cut the image. `Picture.ExactRows` says exactly when it is exact,
  and `Picture.BlitPixel` what it draws in every case.
- drawText leaves out what it takes to be off the screen. With a negative gutter that can be
  seen: `Lettering.CullingIsInvisible` says exactly when it cannot.
- A dictionary "set" with a timeout that is not a number is refused, but only after the old
  entry has been removed (`Dictionary.RefusedRequest` says exactly when a refusal changes
  the dictionary).
- The two strip transports agree up to 21845 LEDs and differ for every longer strip
  (`Strip.TransportsAgree`).
- appendLoad prints values that parseHundredths then refuses, from 4294967200 on
  (`Decimal.LoadRoundTrip`).

## Model

| member | source | states |
|---|---|---|
| `Client.EndToEnd` | `ht1632/HT1632.cpp:317-362` | For any sequence of display calls after begin, on any panel (any select chain, RAM, configuration and open session) and any brightness from 1 to 16: once renderAll has run, the LED of each colour at each pixel of the 32N by 16 screen is lit, by the data sheet and the wiring of the four chips to a unit, exactly if the display is not blanked and the pixel is in the picture that the calls drew; every chip has its LEDs on, unless blanked, at the brightness they asked for; no select bit is low; and at every WR edge since begin exactly one chip was listening. Pictures are sets of pixels that know nothing of cells, rewrite bits, sessions or pins. |
| `Client.Perform` | `ht1632/HT1632.cpp:209-441` | Every public call keeps the invariant between calls (no chip selected, chips at the stored brightness, dirty tracking right on both colours) and changes the buffers, the target, the brightness and the LED switch as specified, whatever was called before. |
| `Client.ShownGlows` | `ht1632/HT1632.h:80-88` | If each chip word equals the low nibble of its cell, the LED of a pixel is lit exactly if the chips are on and the pixel is in the picture that the cells hold. |
| `Canvas.OperateDraws` | `ht1632/HT1632.cpp:36-441` | What a call does to cells is what it means to pictures: View after Operate is Draw after View, for all calls. |
| `Canvas.TransitDraws` | `ht1632/HT1632.cpp:381-441` | Modes 0 to 6 are, on pictures, swap, save, save of the symmetric difference, removal, restoring, union, and a swap that darkens the secondary picture; any other mode, and any mode on the secondary buffer, changes nothing. On cells they do the same. |
| `Canvas.LitBlit` | `ht1632/HT1632.cpp:225-297` | On cells drawImage does what stamping an image does to a picture: a covered pixel i columns and r rows into the image becomes bit r mod 4 of img[offset + i * ceil(height/4) + r/4], and the others stay. |
| `Canvas.LitTypeset` | `ht1632/HT1632.cpp:36-72` | On cells drawText does what stamping glyph after glyph, with the letter spacing between them, does to a picture. |
| `Canvas.LetterPixel` | `ht1632/HT1632.cpp:45-66` | One character, pixel by pixel: glyph ch - 32 for the codes 32 to 95 and ch - 64 for the small letters, taken from the font data at its step, then the letter spacing, which repeats the first column of the data; no other code draws anything. |
| `Canvas.LettersAppend` | `ht1632/HT1632.cpp:43-71` | A text draws its characters one after the other, each from the cursor that those before it have left. |
| `Canvas.GutterPixel` | `ht1632/HT1632.cpp:62-65` | The letter spacing, pixel by pixel: every column of it is the first column of the font data. |
| `Canvas.LitPlot` | `ht1632/HT1632.cpp:209-219` | setPixel puts one pixel into the picture or takes it out; off the screen it does nothing. |
| `Canvas.DrawAll` | `ht1632/HT1632.cpp:36-441` | Whole runs of calls on pictures; the target stays one of the three buffers. |
| `Geometry.MapIsBijection` | `ht1632/HT1632.h:87-88` | For every number of units the address map is a bijection between the pixels of the 32N by 16 screen and the bits of the 128N cells. |
| `Geometry.CellOfPixel` | `ht1632/HT1632.h:87-88` | The address of a pixel is inside the buffer and determines its column and its group of four rows. |
| `Geometry.PixelOfCell` | `ht1632/HT1632.h:87-88` | Every cell of the buffer is the cell of some pixel of the screen. |
| `Geometry.ChipAndWord` | `ht1632/HT1632.h:87-88` | The chip of a pixel is x/32 * 4 + y/8 * 2 + x/16 mod 2, and its word there x mod 16 * 2 + y/4 mod 2. |
| `Picture.BlitPixel` | `ht1632/HT1632.cpp:225-297` | After drawImage of nibble data every screen pixel that the image covers, at column i and row r of it, is bit r mod 4 of img[offset + i * ceil(height/4) + r/4], and every other pixel keeps its value; for all positions, negative ones included, and all heights. |
| `Picture.CoveredPixels` | `ht1632/HT1632.cpp:225-297` | Which screen pixels are covered, for every height and position, as arithmetic: the columns of the image, and its rows with the padding rows that the carry flush writes and without the rows that low images lose. |
| `Picture.RowsFromTop` | `ht1632/HT1632.cpp:239-290` | With height >= 4 and y >= 0 the rows written are [0, height) and the last y mod 4 rows of the padding to whole nibbles: the flush of the carry writes them. |
| `Picture.RowsOfWholeNibbles` | `ht1632/HT1632.cpp:239-290` | With a height in whole nibbles the rows written are exactly [0, height), for every y. |
| `Picture.ExactRows` | `ht1632/HT1632.cpp:239-290` | The screen rows that drawImage writes are exactly the rows of the image, if and only if the height is a multiple of 4, or y is a nonnegative multiple of 4, or the image ends above the screen, or its first wrong row is below the screen. |
| `Picture.RowsBeforeWrong` | `ht1632/HT1632.cpp:239-290` | Above the first wrong row the rows written are right. |
| `Picture.WrongRow` | `ht1632/HT1632.cpp:239-290` | At the first wrong row they are not: a row of the image is cut off, or a row of padding is written. |
| `Picture.ColumnPixel` | `ht1632/HT1632.cpp:239-290` | The cell by cell form of the copying engine, with its masks and carried bits, gives each pixel of a column either the image bit of its row or its own old value. |
| `Picture.PlotPixel` | `ht1632/HT1632.cpp:209-219` | setPixel changes one pixel and no other. |
| `Picture.ColumnFinished` | `ht1632/HT1632.cpp:239-290` | When the loop over a column ends, flushed or not, no row of cells that it has not served would have been written. |
| `Picture.ColumnStored` | `ht1632/HT1632.cpp:246-288` | A write of the engine at one step leaves the column done up to the next step and every other cell alone. |
| `Lettering.BlankLetter` | `ht1632/HT1632.cpp:53-66` | A letter that drawText skips for being left of the screen, right of it or outside its rows would have drawn nothing, gutters included. |
| `Lettering.BlankText` | `ht1632/HT1632.cpp:40-57` | From the right edge on, or outside the rows, the rest of a text draws nothing. |
| `Lettering.GlyphOf` | `ht1632/HT1632.cpp:48-53` | The codes 32 to 95 have the glyphs 0 to 63, the small letters those of their capitals, and no other byte has one. |
| `Lettering.CaseIsFolded` | `ht1632/HT1632.cpp:48-53` | A text draws, is culled and moves the cursor as the same text in capitals does. |
| `Lettering.CursorOfOne` | `ht1632/HT1632.cpp:84-91` | What each byte moves the cursor by: the width of its glyph and the gutter, or nothing. |
| `Lettering.CursorAppend` | `ht1632/HT1632.cpp:67-68` | The cursor after two texts is the cursor of the second from where the first has left it. |
| `Lettering.CursorShift` | `ht1632/HT1632.cpp:67-68` | The advance of the cursor over a text does not depend on where it starts. |
| `Lettering.CulledIsUncut` | `ht1632/HT1632.cpp:36-72` | With a gutter that is not negative, the text with everything left out that the engine leaves out gives the same buffer as the text drawn uncut. |
| `Lettering.CutShort` | `ht1632/HT1632.cpp:56-69` | With a negative gutter there is a text that the right break cuts short: uncut, its cursor would come back onto the screen. |
| `Lettering.CullingIsInvisible` | `ht1632/HT1632.cpp:36-72` | Culling is invisible, for every text, font and position, if and only if the gutter is not negative. |
| `HT1632.GetTextWidth` | `ht1632/HT1632.cpp:75-93` | The uncut cursor of drawText ends at x + width + gutter, for every start x and every gutter. |
| `Protocol.MsbRoundTrip` | `ht1632/HT1632.cpp:457-473` | Reading the bits that writeData sends, most significant first, gives the value modulo 2^len. |
| `Protocol.NibbleRoundTrip` | `ht1632/HT1632.cpp:476-493` | Reading the four bits that writeDataRev sends gives the low nibble of the cell; the rewrite bit is not sent. |
| `Protocol.LsbFirst` | `ht1632/HT1632.cpp:476-493` | Bit j of the four is bit j of the cell. |
| `Protocol.StrayEdges` | `tests/gpio_protocol_tests.cpp:37-55` | A WR edge counts as stray unless exactly one select bit is low. |
| `Protocol.ReceiveAppend` | `tests/gpio_protocol_tests.cpp:37-55` | A chip that hears two bit strings one after the other ends as if it had heard their concatenation. |
| `Protocol.HeaderBits` | `ht1632/HT1632.h:112-115` | Of the eight three-bit IDs, 100 opens a command session, 101 a write session, and any other leaves the chip deaf. |
| `Protocol.AddressBits` | `ht1632/HT1632.h:136` | Seven address bits, most significant first, set the address of the write session. |
| `Protocol.WordBits` | `ht1632/HT1632.h:137` | Four data bits, least significant first, store one word and step the address. |
| `Protocol.CommandBits` | `ht1632/HT1632.h:117-135` | Eight command bits and the idle bit execute exactly one command. |
| `Protocol.ClockedBit` | `ht1632/HT1632.cpp:457-473` | DATA takes a level and WR pulses: if chip k alone is selected, it hears that one bit and nothing else on the panel changes. |
| `Protocol.FlushedAll` | `ht1632/HT1632.cpp:529-538` | As many clock pulses as there are chips, with CS high, select no chip and reset every session, whatever the chain held. |
| `Protocol.ReachedFirst` | `ht1632/HT1632.cpp:539-543` | One low level clocked into an all-high chain selects the first chip and no other. |
| `Protocol.ReachedNext` | `ht1632/HT1632.cpp:544-546` | Each further pulse moves the selection one chip on. |
| `Protocol.PassedNext` | `ht1632/HT1632.cpp:544-546` | Past the last chip the low level leaves the chain, and no chip is selected. |
| `Gpio.BurstEqualsPlain` | `ht1632/HT1632.h:160-166` | For any pins below 32 with their one-hot masks, and any sequence of edges, register stores and per-pin writes give the same pin levels after every edge. |
| `Gpio.MaskNamesOnePin` | `src/gpio/bcm2835GpioRegisters.cpp:16-20` | The mask of a pin names that pin and no other of the 32. |
| `Gpio.MaskDoubles` | `src/gpio/bcm2835GpioRegisters.cpp:16-20` | The mask of pin 0 is 1, and that of every further pin is twice the one before. |
| `Gpio.OneWire` | `ht1632/HT1632.h:160-166` | With four distinct pins, a write of one pin moves one wire of the panel and no other. |
| `Gpio.Device.BurstWrite` | `src/gpio/GpioBurst.h:48-61` | A store to SET raises the pins of the mask, a store to CLEAR lowers them, the rest stay, and the panel senses the new levels. |
| `Gpio.Device.Write` | `src/gpio/bcm2835GpioRegisters.cpp:41-46` | One pin takes the level and the others stay. |
| `Gpio.Device.AcquireBurst` | `src/gpio/gpiodV2Gpio.cpp:125-151` | Burst access is granted if and only if there are pins, the registers are mapped and every pin is claimed as an output and in bank 0; then each mask is its pin's. |
| `HT1632.HT1632.constructor` | `ht1632/HT1632.cpp:12-18` | A new driver has full brightness, no target and no burst masks. |
| `HT1632.HT1632.PinWrite` | `ht1632/HT1632.h:160-166` | Whichever path is taken, the panel sees exactly one wire driven. |
| `HT1632.HT1632.WriteData` | `ht1632/HT1632.cpp:457-473` | The selected chip hears the value's bits, most significant first; every other chip, the chain and all RAM stay as they were. |
| `HT1632.HT1632.WriteDataRev` | `ht1632/HT1632.cpp:476-493` | The selected chip hears the four low bits, least significant first, and nothing else changes. |
| `HT1632.HT1632.WriteCommand` | `ht1632/HT1632.cpp:449-454` | The selected chip has obeyed the command, and no other chip has noticed. |
| `HT1632.HT1632.Select` | `ht1632/HT1632.cpp:521-550` | From any state of the chain, chip n alone is selected, or none for 0 and for numbers past the last chip; sessions are reset, RAM and configuration kept. A negative n leaves the whole chain low. |
| `HT1632.HT1632.ConfigureChip` | `ht1632/HT1632.cpp:190-204` | A selected chip with any configuration executes the commands 0x00, 0x20, 0x18, 0x01, 0x03, 0x9F + brightness and 0x08 in this order, keeps its RAM, and ends with its LEDs on by the data sheet, at the stored brightness. |
| `HT1632.HT1632.Initialize` | `ht1632/HT1632.cpp:174-207` | From any panel state every chip ends configured, with its LEDs on at the stored brightness, and none selected, and every buffer is marked for rewriting. |
| `HT1632.HT1632.Render` | `ht1632/HT1632.cpp:329-362` | Afterwards the target colour is shown by its chips and no longer marked, the words of the other colour are untouched, and the buffers are as before; for the secondary buffer no edge is driven, and before begin nothing happens. |
| `HT1632.HT1632.RenderCells` | `ht1632/HT1632.cpp:338-361` | The loop writes the dirty cells in compacted sessions and skips the clean ones, and in the end every word of the colour shows its cell. |
| `HT1632.HT1632.RenderCell` | `ht1632/HT1632.cpp:340-359` | One turn keeps the session invariant: an open session is on the last chip written, alone, and its auto-incremented address is the next cell's. |
| `HT1632.HT1632.OpenSession` | `ht1632/HT1632.cpp:344-352` | A session opens on the cell's chip alone, at the cell's address in the colour's half. |
| `Paint.Wrote` | `ht1632/HT1632.cpp:353-354` | Four bits into the session put the cell into the word that shows it and leave the session at the next cell, on the same chip. |
| `Paint.Skipped` | `ht1632/HT1632.cpp:355-358` | A clean cell may be left out: its word already shows it. |
| `Paint.PaintedWords` | `ht1632/HT1632.cpp:329-362` | A finished rendering shows every cell of the colour and leaves every word of the other colour as it was. |
| `Paint.RenderedConsistent` | `ht1632/HT1632.cpp:329-362` | A rendering keeps the dirty-tracking invariant although it clears the board's mark and no cell's rewrite bit. |
| `Paint.ToldConsistent` | `ht1632/HT1632.cpp:366-379` | A command to all chips keeps the invariant and everything that is shown. |
| `Paint.ChipsLit` | `ht1632/HT1632.cpp:161-207` | Between calls either all chips have their LEDs on by the data sheet or none has, and all run at the stored brightness. |
| `Paint.MarkedConsistent` | `ht1632/HT1632.cpp:174-207` | After an initialisation every buffer is marked, so the invariant holds whatever the RAM holds. |
| `Paint.DrawnConsistent` | `ht1632/HT1632.cpp:209-304` | Drawing keeps the invariant if each changed cell carries its rewrite bit or its board is marked. |
| `Paint.FlaggedBlit` | `ht1632/HT1632.cpp:225-297` | drawImage sets the rewrite bit in every cell it changes. |
| `Paint.FlaggedTypeset` | `ht1632/HT1632.cpp:36-72` | So does drawText. |
| `Paint.FlaggedPlot` | `ht1632/HT1632.cpp:209-219` | So does setPixel. |
| `Paint.SecondaryFree` | `ht1632/HT1632.cpp:381-441` | The secondary buffer may hold anything: it is never rendered. |
| `HT1632.HT1632.SetPixel` | `ht1632/HT1632.cpp:209-219` | The target buffer changes as Plot says, and on no other cell; with no target chosen nothing happens. |
| `HT1632.HT1632.DrawTarget` | `ht1632/HT1632.cpp:221-223` | Only the three buffers can become the target. |
| `HT1632.HT1632.DrawImage` | `ht1632/HT1632.cpp:225-297` | The target buffer, if there is one, becomes the blit of the image; the loops, the clipping and the early returns of the engine add up to that. |
| `HT1632.HT1632.BlitColumn` | `ht1632/HT1632.cpp:239-290` | One column of the image is in the buffer and every other cell is as before. |
| `HT1632.HT1632.BlitStep` | `ht1632/HT1632.cpp:246-288` | One step keeps the carried nibble right and the column done up to the next step. |
| `HT1632.HT1632.DrawText` | `ht1632/HT1632.cpp:36-72` | The early return, the left skip and the right break give the culled text, for every gutter; for a gutter that is not negative that is the buffer that every character and gutter drawn uncut would give. |
| `HT1632.HT1632.Clear` | `ht1632/HT1632.cpp:299-304` | The target buffer is dark and marked; with no target chosen nothing happens. |
| `HT1632.HT1632.ClearAll` | `ht1632/HT1632.cpp:306-315` | All three buffers are dark, and the target is the old one. |
| `HT1632.HT1632.RenderAll` | `ht1632/HT1632.cpp:317-326` | Both colours are shown, and nothing the callers can see of the buffers or settings has changed. |
| `HT1632.HT1632.SetBrightness` | `ht1632/HT1632.cpp:366-379` | A level from 1 to 16 reaches every chip, any other is ignored, so every chip runs at the stored brightness; what was shown is still shown. |
| `HT1632.HT1632.Blank` | `ht1632/HT1632.cpp:161-172` | No chip has its LEDs on, with RAM, brightness and tracking kept. |
| `HT1632.HT1632.Reinit` | `ht1632/HT1632.cpp:149-159` | Self-stabilisation: from any select chain, RAM, configuration and sessions, every chip ends with its LEDs on at the stored brightness and both colours show the buffers. |
| `HT1632.HT1632.Begin` | `ht1632/HT1632.cpp:101-147` | From any panel, both colours are shown dark, every chip has its LEDs on at the stored brightness, the target is the first board and the invariant holds. |
| `HT1632.HT1632.Connect` | `ht1632/HT1632.cpp:101-135` | The four pins are claimed as outputs and rest with CS high and the other three low; the register path is used if and only if it is mapped and every pin is in bank 0. |
| `HT1632.HT1632.Transition` | `ht1632/HT1632.cpp:381-441` | All seven modes change the three buffers as Transit says and keep the invariant; with no target chosen nothing happens. |
| `HT1632.HT1632.Fade` | `ht1632/HT1632.cpp:425-437` | The fade through all brightness levels swaps the buffers, shows the new one and ends at the brightness it began with. |
| `HT1632.BitAt` | `ht1632/HT1632.cpp:457-473` | The test with a shifted one bit reads the value's bits in order. |
| `Strip.TransportsAgree` | `lpd8806/LPD8806.cpp:111-158` | The bit-banged frame and the serial frame put the same bits on the wire if and only if the strip has at most 21845 LEDs: beyond that the 16-bit byte count wraps. |
| `Strip.BytesRoundTrip` | `tests/gpio_protocol_tests.cpp:56-75` | A receiver that groups the sampled bits by eight reads back exactly the bytes sent. |
| `Strip.BitsOfBytes` | `lpd8806/LPD8806.cpp:126-148` | The bits of a frame are those of its bytes, bit 7 first. |
| `Strip.FramesLatched` | `lpd8806/LPD8806.cpp:111-158` | A frame is the bits of the pixel bytes and then eight low bits for every 32 LEDs begun, on both transports; only beyond 21845 LEDs does the bit-banged one send 3 * leds modulo 65536 of the bytes. |
| `Strip.LPD8806.Show` | `lpd8806/LPD8806.cpp:111-158` | The levels sampled at rising clock edges are the bits of the pixel bytes and then 8 L low ones with 32 (L - 1) < leds <= 32 L, on either transport, although the bit-banged one skips redundant data writes and, beyond 21845 LEDs, cuts the bytes short; an empty strip sends nothing; every data byte keeps its high bit. |
| `Strip.LPD8806.SendByte` | `lpd8806/LPD8806.cpp:126-148` | With the cached data level, known or not, the strip still samples all eight bits, most significant first. |
| `Strip.LPD8806.BitBangLatchSignal` | `lpd8806/LPD8806.cpp:74-82` | Eight low bits for every latch byte. |
| `Strip.LPD8806.TransferSpiLatch` | `lpd8806/LPD8806.cpp:88-92` | The same latch bytes in one transfer. |
| `Strip.LatchBytes` | `lpd8806/LPD8806.cpp:84-86` | One latch byte for every 32 LEDs begun. |
| `Strip.LPD8806.Begin` | `lpd8806/LPD8806.cpp:36-45` | Either transport starts with eight low bits for every 32 LEDs begun and nothing else, whatever the level of the clock line was. |
| `Strip.LPD8806.SetPixelColor` | `lpd8806/LPD8806.cpp:168-178` | Three bytes of one LED, green first, each with its high bit, and no other byte changes; an LED past the end is ignored. |
| `Strip.LPD8806.SetPackedColor` | `lpd8806/LPD8806.cpp:180-189` | The same for a packed colour. |
| `Strip.ColorBytes` | `lpd8806/LPD8806.cpp:161-166` | Packing three components and unpacking them gives the three wire bytes in wire order. |
| `Strip.ColorPlaces` | `lpd8806/LPD8806.cpp:161-166` | Green is in bits 16 to 23 of a packed colour, red in bits 8 to 15, blue in bits 0 to 7, each with its high bit set. |
| `Strip.WithLedBytes` | `lpd8806/LPD8806.cpp:168-178` | Byte k of the pixel data belongs to LED k / 3 and is replaced with that LED only. |
| `Strip.LPD8806.ClearPixelColors` | `lpd8806/LPD8806.cpp:191-199` | Every LED is black. |
| `Strip.LPD8806.UpdateLength` | `lpd8806/LPD8806.cpp:94-105` | A new length gives a black strip of that length. |
| `Strip.LPD8806.GetPixelColor` | `lpd8806/LPD8806.cpp:217-226` | The seven-bit components of an LED, black past the end. |
| `Strip.SetThenGet` | `lpd8806/LPD8806.cpp:168-226` | Reading an LED gives back the seven low bits that were set, and setting one LED leaves all others. |
| `Timers.TimerExactness` | `src/timerTick.cpp:118-156` | A service started at tick T and then left alone is called back, within any run of other calls, at T+P, T+2P, ... if it is periodic and at T+P only if it is not, where P = 1 + interval/12. |
| `Timers.RegisterStarts` | `src/timerTick.cpp:43-68` | A registration that starts the service is one that does not, followed by a start of the new cookie. |
| `Timers.RegisteredExactness` | `src/timerTick.cpp:43-156` | A service registered and started at tick T is called back at T+P, T+2P, ... or, as a one-shot, at T+P only. |
| `Timers.PeriodOutlastsInterval` | `src/timerTick.cpp:77-85` | P is the least number of 12 ms ticks that is longer than the interval. |
| `Timers.PeriodicExactly` | `src/timerTick.cpp:139-154` | The countdown of a periodic service after n ticks, in closed form. |
| `Timers.OneShotExactly` | `src/timerTick.cpp:139-154` | The same for a one-shot: it expires once and stays expired. |
| `Timers.FiresWhenExpired` | `src/timerTick.cpp:139-154` | The log of callbacks of a run agrees with the countdown of the service alone: other services and calls do not disturb it. |
| `Timers.UnregisteredNeverFires` | `src/timerTick.cpp:87-102` | A service that has been unregistered is never called back and its cookie never comes back. |
| `Timers.CookiesNeverRepeat` | `src/timerTick.cpp:43-68` | Two registrations, with anything in between, get different cookies. |
| `Timers.StepSound` | `src/timerTick.cpp:43-156` | Every call keeps the registry sound, and its log and its cookies only grow. |
| `Timers.NoSpuriousWakeups` | `src/timerTick.h:58-86` | Over any run of registry calls, ticks and polls, the wake-ups that the owner of a service sees, with the pending one, are at most the callbacks of the service in the run, and one more if the flag was set at first. |
| `Timers.NoLostWakeups` | `src/timerTick.h:58-86` | The flag is set exactly when the registry has called the service back after the last poll, or when it was set at first and there has been no poll: wake-ups are only coalesced, never lost. |
| `Timers.WatchRuns` | `src/timerTick.h:58-86` | Polling a flag does not touch the registry, so the run is that of its events alone. |
| `Timers.Act` | `src/timerTick.h:56-86` | One registry call, tick or poll on the objects does to the registry and to the flag what the specification says. |
| `Timers.Attend` | `src/timerTick.h:56-86` | So does any sequence of them on a registered service and its owner, and the wake-ups counted on the objects are bounded by the callbacks in the log. |
| `Timers.TimerTick.Register` | `src/timerTick.cpp:43-68` | An unregistered service gets the next cookie, started if asked; a registered one is refused and nothing changes. |
| `Timers.TimerTick.Start` | `src/timerTick.cpp:70-85` | Starts the service of a known cookie, afresh. |
| `Timers.TimerTick.Unregister` | `src/timerTick.cpp:87-102` | Takes the service out and resets its cookie and countdown; an unknown cookie changes nothing. |
| `Timers.TimerTick.Tick` | `src/timerTick.cpp:139-154` | One turn for all services, in whatever order they are visited; the flags of exactly the expiring ones are raised. |
| `Timers.Service.GetAndResetExpired` | `src/timerTick.h:64` | Reads and clears the flag in one step. |
| `TimedMap.AnyRun` | `src/dictionary.cpp:107-223` | For any sequence of calls and turns of the clock on a new dictionary, single steps of a walk included, every answer is that of a timed map that never throws anything out, walks and steps in the order of the first differing character; no live entry is lost; the counters are, modulo 2^32, those of the entries that the answers say were added: all that are gone are counted as removed, and expiries are among them. |
| `TimedMap.Perform` | `src/dictionary.cpp:58-223` | One call keeps the dictionary and the timed map indistinguishable, now and at every later time. |
| `TimedMap.SameAnswer` | `src/dictionary.cpp:58-95` | A request from a form gets the same answer whether or not dead entries have been swept out. |
| `Dictionary.Conservation` | `src/dictionary.cpp:107-196` | Whenever entries and counters agree with the history, size = added - removed modulo 2^32, and expiries are among the removals. |
| `Dictionary.ExpiryIsAge` | `src/dictionary.cpp:33-43` | The timer's flag says that an entry is dead exactly if its interval is not -1 and it is negative or its age has reached 1 + interval/12 ticks. |
| `Dictionary.LiveIsAge` | `src/dictionary.cpp:33-43` | An entry is live for ever with interval -1, and otherwise as long as its age in 12 ms ticks has not outlasted a nonnegative interval. |
| `Dictionary.LessExactly` | `src/dictionary.cpp:198-208` | One key is before another in the order of std::string exactly if at some place, with the same characters before it, the first key has ended or has the smaller character. |
| `Dictionary.FormRequests` | `src/dictionary.cpp:58-95` | What each form does to the book, by its fields: del of one key or of everything, add of a key that is not live, set of any key, with the defaults set and -1; everything else is refused and changes nothing. |
| `Dictionary.NoServiceLeftBehind` | `src/dictionary.cpp:33-48` | The timer services that are registered for entries are exactly those of the present entries with an interval of 0 or more; with no entries there is none; and an entry with a service is expired exactly when its countdown has run out. |
| `Dictionary.ServicesInsert` | `src/dictionary.cpp:33-38` | A new entry registers and starts one service if its interval is not negative, and none otherwise. |
| `Dictionary.ServicesErase` | `src/dictionary.cpp:45-48` | An entry that goes, for whatever reason, takes its service along and no other. |
| `Dictionary.UnregisterEach` | `src/dictionary.cpp:172-185` | Unregistering the services of all entries one after the other leaves none of them. |
| `Dictionary.Dictionary.Add` | `src/dictionary.cpp:107-129` | Succeeds if and only if the key is not empty and not live; a dead entry of the key is replaced and counted as expired and removed. |
| `Dictionary.Dictionary.Get` | `src/dictionary.cpp:131-161` | Answers as the timed map does; a dead entry is dropped on the way, counted twice, and the view does not change. |
| `Dictionary.Dictionary.Remove` | `src/dictionary.cpp:163-170` | Takes the entry out, and answers whether it was physically there. |
| `Dictionary.Dictionary.Clear` | `src/dictionary.cpp:172-185` | Nothing is left, and every entry is counted as removed. |
| `Dictionary.Dictionary.GetNext` | `src/dictionary.cpp:203-223` | Finds the first live key after the given one, by the first differing character, or none; drops exactly the dead entries passed. |
| `Dictionary.Dictionary.GetFirst` | `src/dictionary.cpp:198-201` | The first live entry of all. |
| `Dictionary.Dictionary.Walk` | `src/dictionary.cpp:272-280` | With the clock at rest the walk ends, has yielded exactly the live entries, each once and in increasing order by the first differing character, and leaves no dead entry. |
| `Dictionary.NextExists` | `src/dictionary.cpp:203-223` | Among finitely many keys after a given one there is a first. |
| `Dictionary.Dictionary.Tick` | `src/timerTick.cpp:139-154` | One tick ages every entry by one. |
| `Dictionary.Dictionary.ParsePostRequest` | `src/dictionary.cpp:58-95` | The book after a form is what the request asks of the timed map: deleting one or all, adding, or setting. |
| `Dictionary.SetReplaces` | `src/dictionary.cpp:80-95` | A set with a key and a readable timeout always succeeds and changes only its key. |
| `Dictionary.RefusedRequest` | `src/dictionary.cpp:58-95` | A request that is refused leaves the dictionary as it was, if and only if it is not a set with an unreadable timeout for a key that is there; that one takes out its key and nothing else, and users see it exactly if the entry was live. |
| `Inboxes.Inbox.AddMessage` | `src/inbox.cpp:52-57` | Messages queue up at the end. |
| `Inboxes.Inbox.GetMessage` | `src/inbox.cpp:68-75` | The oldest message leaves, if there is one. |
| `Inboxes.Inbox.TakeMessage` | `src/inbox.cpp:59-66` | The oldest message leaves. |
| `Inboxes.Inbox.Clear` | `src/inbox.cpp:87-91` | The queue is empty and its count is 0. |
| `Inboxes.InboxRegistry.GetInbox` | `src/inbox.cpp:117-131` | The same inbox for a thread every time, new and empty the first time, and never shared. |
| `Inboxes.InboxRegistry.Broadcast` | `src/inbox.cpp:133-140` | Every inbox but the sender's gets the message once, at its end. |
| `Shutdown.ShutdownIsOrdered` | `src/main.cpp:111-149` | In every run: after the broadcast each worker has left or has Terminate in its inbox; the timer thread stops only after all workers are joined, none of their services registered; the singletons go down when no thread is left. |
| `Shutdown.StepInv` | `src/main.cpp:111-149` | Every atomic step of any thread keeps the invariant behind that. |
| `Shutdown.RunInv` | `src/main.cpp:111-149` | So does every run. |
| `Shutdown.WorkerMeasure` | `src/display.cpp:179-213` | The place of Terminate in a worker's queue is a strictly decreasing measure of its loop, which no other thread disturbs. |
| `Shutdown.TimerMeasure` | `src/timerTick.cpp:133-156` | The same for the timer thread once it is told. |
| `Shutdown.WakesOnTime` | `src/timerTick.h:71-86` | In every run in which a polling worker goes on waiting, its flag is up from the turn of the timer thread on at which its wake service expires, which is within 1 + interval/12 turns, and not before. |
| `Shutdown.WakesWithinPeriod` | `src/timerTick.h:71-86` | Whatever else runs and however it interleaves, after as many turns of the timer thread as its period has a waiting worker can go on. |
| `Shutdown.ProgressLowers` | `src/main.cpp:129-149` | A progress step lowers what is left of the shutdown; of the other steps only a message to the timer thread raises it, by two. |
| `Shutdown.ProgressIsBounded` | `src/main.cpp:129-149` | Every run of the shutdown, however the threads interleave, has at most as many progress steps as were left at its start, plus two for each message sent to the timer thread meanwhile. |
| `Shutdown.StepsToEnd` | `src/main.cpp:129-149` | In numbers: at most 77 progress steps, and two for each message that waits in an inbox at the start or is sent to the timer thread meanwhile. |
| `Shutdown.PotentialBound` | `src/main.cpp:129-149` | What is left of a shutdown never exceeds 77 and twice the messages in the seven inboxes. |
| `Shutdown.NeverStuck` | `src/main.cpp:129-149` | Short of the end there is always a progress step: at once, or, if the worker being joined waits for its tick, after the timer turns of its wake period (2, 2, 51 or 84) and nothing else. The joins cannot deadlock. |
| `Shutdown.CanFinish` | `src/main.cpp:129-149` | From every state of the shutdown the process can come to its end by its own steps, in a number of steps bounded by what is left. |
| `Shutdown.PlaceStands` | `src/inbox.cpp:52-57` | A message behind Terminate does not move it. |
| `Form.ParsePost` | `src/webHandlerInternal.cpp:555-642` | The decoder that writes key and value into one buffer stays inside bodyLen + 1 bytes for every body and replies as the reference decoder on separate key and value does, errors included. |
| `Form.BufferCommits` | `src/webHandlerInternal.cpp:593-611` | The two C strings in the shared buffer are the key and the value under way. |
| `Form.ByteMeans` | `src/webHandlerInternal.cpp:586-632` | What each byte of a body but % does to the pair under way: = begins the value again, & ends the pair, + is a space, and the rest are themselves. |
| `Form.PercentMeans` | `src/webHandlerInternal.cpp:615-629` | Two hexadecimal digits after a %, capital or small, are the byte they write; anything else is refused, and a % with fewer than two bytes after it ends the body. |
| `Form.FormRoundTrip` | `src/webHandlerInternal.cpp:555-642` | Decoding a reference encoding gives the pairs back, later ones winning. |
| `Form.MapRoundTrip` | `src/webHandlerInternal.cpp:555-642` | Any nonempty map with nonempty NUL-free keys and NUL-free values, encoded in any order of its pairs, is decoded to itself. |
| `Form.ExtraEquals` | `src/webHandlerInternal.cpp:593-600` | With any number of raw = signs only the text after the last one is the value. |
| `Form.NoField` | `src/webHandlerInternal.cpp:603-611` | A text without = gives no field, nor does one whose key is empty. |
| `Decimal.ParseHundredths` | `src/statusReport.cpp:57-89` | Accepts exactly the unsigned decimals with a whole part up to 42949671 and at most two fraction digits, gives their hundredths, and never leaves 32 bits. |
| `Decimal.ParseFraction` | `src/statusReport.cpp:71-85` | One or two digits and nothing else are a fraction, in hundredths. |
| `Decimal.LoadRoundTrip` | `src/statusReport.cpp:40-45` | What appendLoad prints is parsed back to the same value if and only if that is at most 4294967199. |
| `Decimal.LoadText` | `src/statusReport.cpp:40-45` | A load is printed as its whole part, a point and the two digits of its hundredths. |
| `Decimal.WholeDecimals` | `src/statusReport.cpp:57-89` | A run of digits is a decimal up to 42949671 and stands for a hundred times its value; nothing is one that does not start with a digit. |
| `Decimal.SplitIsUnique` | `src/statusReport.cpp:57-89` | A token can be read as a decimal in one way only. |
| `Decimal.DecRoundTrip` | `src/statusReport.cpp:27-38` | Printing a number in decimal and reading it back is the identity, and there is no leading zero. |
| `Json.JsonEscape` | `src/statusReport.cpp:274-303` | The loop computes the escaping of the whole string. |
| `Json.EscapeTable` | `src/statusReport.cpp:274-303` | The escape of every character: seven short ones, four hexadecimal digits in small letters for the other control characters, and none for the rest. |
| `Json.TextForm` | `src/statusReport.cpp:171-247` | The punctuation of printed objects: braces, commas between the members, and a colon and a space after each quoted key. |
| `Json.EscapeRoundTrip` | `src/statusReport.cpp:274-303` | A reader for section 7 of RFC 8259 gets every string back from its escaped form and stops at the closing quotation mark. |
| `Json.EscapeHasNoControls` | `src/statusReport.cpp:274-303` | No control character is left, NUL included. |
| `Json.DocReads` | `src/statusReport.cpp:171-247` | Every document that the printers build is read back, by a reader of sections 3, 4, 6 and 7 of RFC 8259, as what it means, up to where it ends. |
| `Json.ItemsRead` | `src/statusReport.cpp:204-247` | The same for lists of members, however spaced and nested. |
| `Json.IntIsNumeral` | `src/statusReport.cpp:27-31` | Every printed integer is a number of section 6 of RFC 8259. |
| `Json.LoadIsNumeral` | `src/statusReport.cpp:40-45` | So is every printed load. |
| `Json.TextHasNoNul` | `src/statusReport.cpp:365-434` | No printed document has a NUL in it. |
| `StatusReport.ReportReads` | `src/statusReport.cpp:365-434` | For every snapshot the report is a JSON text without NUL, and what is read from it has, under dictionary and entries, the original pairs in their order. |
| `StatusReport.SystemReported` | `src/statusReport.cpp:171-202` | Read back under system: the three loads in hundredths or null, and the three memory sizes or null. |
| `StatusReport.SensorsReported` | `src/statusReport.cpp:368-387` | Read back at the top and under motion: version 1, the light value, the motion flag and the time of its last change. |
| `StatusReport.ModesReported` | `src/statusReport.cpp:389-397` | Read back under display and led_strip: the modes and the dimming. |
| `StatusReport.BrokerReported` | `src/statusReport.cpp:204-235` | Read back under mqtt: the connection and the nine counters, each under its own name, as 32-bit signed numbers. |
| `StatusReport.CountersReported` | `src/statusReport.cpp:401-406` | Read back under dictionary: the size and the four counters. |
| `StatusReport.HitsReported` | `src/statusReport.cpp:417-430` | Read back under handlers and hits: every handler and its count, in their order, or nothing if there were none to ask. |
| `StatusReport.RenderStatusJson` | `src/statusReport.cpp:365-434` | What the renderers append to one buffer is the text of one document, then a line end. |
| `StatusReport.RenderPairs` | `src/statusReport.cpp:237-247` | The loop over the pairs writes one member for each, in order, with commas between. |
| `StatusReport.RenderCpuLoad` | `src/statusReport.cpp:171-188` | Three loads, or three nulls if they are not known. |
| `StatusReport.RenderSystem` | `src/statusReport.cpp:171-202` | The system object. |
| `StatusReport.RenderMqtt` | `src/statusReport.cpp:204-235` | The broker object with its counters cast to int. |
| `StatusReport.StatusSpaced` | `src/statusReport.cpp:365-434` | Every value in the document is well spaced and every number is a numeral, whatever the snapshot. |
| `StatusReport.TopFound` | `src/statusReport.cpp:365-434` | A reader that takes the last of repeated keys finds each of the nine members of the report under its key. |
| `StatusReport.EntriesFound` | `src/statusReport.cpp:400-416` | And in the dictionary, entries holds the pairs. |

## Left out

- Real time: delays, nops, memory barriers and the fade's pacing. Edges and ticks are counted instead.
- Mutexes and threads inside the display, strip, timer and dictionary code: each method is one atomic step.
- A tick or another call between two steps of one dictionary walk: `Dictionary.Walk` is proved with the clock at rest, as its promise needs. In `TimedMap` single steps are calls of their own, with anything between them.
- Allocation failure, and renderAll, setBrightness or clearAll before begin.
- The number of display units is a constant of the driver object, not the macro value 4; every theorem holds for each number.
- HT1632.HT1632.DrawText: does not model width tables with negative entries; the widths are natural numbers.
- HT1632.GetTextWidth: the same.
- Calls of drawText with a negative gutter within the runs of `Client` and `Canvas`; the method itself takes every gutter.
- Timer services of other threads in the registry that the dictionary's entries are tied to.
- Data arrays shorter than the image or font they are said to hold.
- Image data with bits above the low nibble: the buffer contents are proved for them too (`HT1632.DrawImage`), the pixel statements are for nibbles.
- The freeing of the old array in LPD8806::updateLength, changing the strip's pins at run time, the reader of packed colours with its 16-bit offset, and strips of 65536 LEDs and more.
- When a message service fires, and its condition: in the Shutdown machine any turn of the timer thread may send a message to the workers that block, and none need.
- The 64-bit wrap of cookies, and the checks of thread identity. A double registration, which throws, is a refusal here.
- std::stoi is a parameter, any function from strings to an integer or a failure.
- The tick counter of the dictionary thread, which nothing else depends on.
- Messages other than Terminate have no content in the Shutdown machine; motion and light sensor hardware, broker and pulsar are not part of it.
- Real liveness: that a thread which can move does move is assumed of the scheduler. Deadlock freedom and bounded progress are proved.
- Bytes of JSON strings are modelled as characters, and UTF-8 validity (section 8.1 of RFC 8259) is not. Arrays (section 5) are not in the reader, because the report has none; a lone surrogate escape is replaced on reading.
- A line end that the report writes after a comma is grouped with the member that follows it.
- renderStatusText, reading /proc, the routing and the HTML pages of the web server, the mode handlers and animations, libmosquitto, libgpiod, spidev and the analog converter: they would add only easy members or foreign calls.
- The clean-up around shutting the singletons down, which is one step of the Shutdown machine.
- The copying of a posted body out of the web library's buffer: the body is one string of bytes.
- Waiting: `TakeMessage` is the part of waitForMessage that runs once there is a message, and the wake-up flags are read when they are set.
