# MatrixDisplay, modelled in Dafny

This project models the MatrixDisplay library. The library drives a chain of
up to four Holtek HT1632 LED matrix boards. The boards share one clock line
and one data line, and each has its own chip-select line. The model has
three parts.

- **The driver (`MatrixDisplay`).** The class `MatrixDriver.MatrixDisplay`
  keeps the live framebuffer, the optional shadow framebuffer and the pin
  table as arrays changed in place.
  - Each display owns a 32-byte region. A byte is one column and a bit is
    one row (`CalcBit`).
  - Everything the driver puts on the bus is appended to the field `wire`,
    a trace of abstract events: `Select(d)`, `Release(d)`, `Bit(b)` for one
    clock-low/data/clock-high cycle, `ExtraClk`, `PinMode`, and the data or
    clock line driven on its own.
  - The pure functions in `framebuffer.dfy` (layout) and `protocol.dfy`
    (the HT1632 frames) specify the methods.
  - A receiver model (`DecodeLE`, `DecodeBE`, `DecodeNibbles`,
    `DecodeBytesLE`, `Track`) is what the frame lemmas are stated against.
- **The toolbox (`DisplayToolbox`).** It maps one virtual x coordinate
  across the chain of displays.
  - Every drawing routine (line, circle, rectangle) is a sequence of
    toolbox `setPixel` calls, listed as `Plot` values.
  - Each method is proved to leave the live buffer as `ApplyPlots` of that
    list.
  - The lists themselves are proved to have the promised shape: end
    points, step shape, symmetry, nearness to the circle, corners.
- **The RollingDemo sketch.**
  - One generation of Conway's Game of Life, read from the shadow buffer
    and written to the live one.
  - The glyph lookup of `drawChar`, and the 5×7 glyph drawing.
  - The character placement of `drawString`.

Machine integers are written out:

- `uint8_t` arithmetic is `% 256`.
- `int8_t` and `char` stores wrap through `Toolbox.Int8`.
- The AVR `int` is 16 bits.

The HT1632 opcodes (`HT1632_ID_WR`, `HT1632_ID_CMD`, `HT1632_CMD_*`) are
defined in `ht1632_cmd.h`. That header is not part of this model, so the
opcodes travel as an opaque `Codes` value given to the constructor.

Where the library's description and its code disagree, the model follows
the code:

- `getPixel` adds the display offset twice, so set-then-get holds only on
  display 0.
- `clear(paint = true)` writes ones, not zeroes.
- `drawLine` is not symmetric in its end points.
- `drawCircle` plots nothing for a radius of 128 or more.
- `drawString` stops after 128 characters.

## Model

| member | source | states |
|---|---|---|
| Wire.BitAtIsShift | MatrixDisplay.cpp:393 | the bit the driver sends for position i is `(v >> i) & 1` of the byte |
| Wire.LEBits | MatrixDisplay.cpp:385-396 | writeDataLE(n, v) clocks exactly n data bits, one event each |
| Wire.BEBits | MatrixDisplay.cpp:399-409 | writeDataBE(n, v) clocks exactly n data bits before the optional extra clock |
| Wire.BytesLE | MatrixDisplay.cpp:258-262 | the body of a sync frame is 8 clocked bits per region byte |
| Wire.DecodeLEBits | MatrixDisplay.cpp:385-396 | a receiver that reassembles the LSB-first bits of writeDataLE(n, v) gets v mod 2^n |
| Wire.DecodeBEBits | MatrixDisplay.cpp:399-409 | a receiver that reassembles the MSB-first bits of writeDataBE(n, v) gets v mod 2^n |
| Wire.BEIsReversedLE | MatrixDisplay.cpp:390-409 | the MSB-first bit order is the exact mirror of the LSB-first one |
| Wire.DecodeBytesLERoundTrip | MatrixDisplay.cpp:258-262 | reading a sync body eight bits at a time gives back every byte sent, in order |
| Wire.Nibbles | MatrixDisplay.cpp:274 | writeNibbles clocks 4 bits per nibble |
| Wire.DecodeNibblesRoundTrip | MatrixDisplay.cpp:274 | reading nibbles back gives the low four bits of each value sent |
| Wire.NibblesClocked | MatrixDisplay.cpp:274 | a run of nibbles only clocks data and never changes a chip select |
| Wire.WellFramedAppend | MatrixDisplay.cpp:243-266 | two traces that each leave every chip deselected, and never clock with none selected, compose into one such trace |
| Wire.SingleFrame | MatrixDisplay.cpp:271-275 | one select, clocked bits, then the matching release is such a well-framed trace |
| Ht1632.WriteHeader | MatrixDisplay.cpp:272-273 | the write-RAM header is 3 ID bits and 7 address bits |
| Ht1632.SyncFrame | MatrixDisplay.cpp:253-264 | the frame for one display is 12 framing events plus 8 per region byte |
| Ht1632.Region | MatrixDisplay.cpp:248-260 | display d's region is 32 bytes of the buffer |
| Ht1632.SyncTrace | MatrixDisplay.cpp:243-266 | syncDisplays for n displays sends 268 events per display |
| Ht1632.NibbleFrame | MatrixDisplay.cpp:269-276 | a nibble write is 12 framing events plus 4 per nibble |
| Ht1632.CommandFrame | MatrixDisplay.cpp:373-382 | a command write is 16 events |
| Ht1632.Clamp | MatrixDisplay.cpp:498-500 | the brightness level is at most 15: pwmValue itself, or 15 when pwmValue is above 15 |
| Ht1632.BrightnessFrame | MatrixDisplay.cpp:502-505 | a brightness write is 14 events |
| Ht1632.ConfigCommands | MatrixDisplay.cpp:129-146 | initDisplay sends seven configuration commands |
| Ht1632.CommandsWithNop | MatrixDisplay.cpp:129-146 | commands sent with the extra clock take 9 events each |
| Ht1632.InitFrame | MatrixDisplay.cpp:120-147 | initDisplay's pin set-up and bring-up block is 70 events |
| Ht1632.SelectAll | MatrixDisplay.cpp:318 | selecting displays 0 .. n-1 is n events |
| Ht1632.ReleaseAll | MatrixDisplay.cpp:329 | releasing displays 0 .. n-1 is n events |
| Ht1632.ClearAllFrame | MatrixDisplay.cpp:315-330 | the paint branch of clear() is the n selects, a 10-bit header, 32 nibbles of 4 bits and the n releases |
| Ht1632.BlankAllFrame | MatrixDisplay.cpp:315-330 | an all-display blanking frame: the n selects, the header and 64 nibbles of 4 bits, then the n releases |
| Ht1632.PreCommandIsMode4 | MatrixDisplay.cpp:422-448 | preCommand's three bits are the value 4 (100) sent MSB-first |
| Ht1632.HeaderDecodes | MatrixDisplay.cpp:272-273 | the header decodes to the write ID's low 3 bits and the address's low 7 bits, with only clocked bits |
| Ht1632.SyncFrameDecodes | MatrixDisplay.cpp:253-264 | a sync frame is 268 events: select, write ID, address 0, the region's 32 bytes read back exactly, release; well framed |
| Ht1632.SyncTraceFrame | MatrixDisplay.cpp:243-266 | frame k of syncDisplays is display k's frame for its own region, displays in order |
| Ht1632.SyncTraceWellFramed | MatrixDisplay.cpp:243-266 | syncDisplays leaves every chip deselected and never clocks with none selected |
| Ht1632.SyncTraceDependsOnRegions | MatrixDisplay.cpp:243-266 | the trace depends only on the bytes of the first n regions |
| Ht1632.NibbleFrameDecodes | MatrixDisplay.cpp:269-276 | a nibble frame carries the write ID, the address's low 7 bits and each nibble's low 4 bits, between select and release; well framed |
| Ht1632.CommandFrameDecodes | MatrixDisplay.cpp:373-382 | a command frame raises the data line, carries the command ID, the full 8-bit command and one zero bit, then lowers it; well framed |
| Ht1632.CommandFrameFramed | MatrixDisplay.cpp:373-382 | a command frame leaves the chip deselected and clocks only while it is selected |
| Ht1632.BrightnessFrameDecodes | MatrixDisplay.cpp:496-506 | a brightness frame carries mode 100 and PWM + min(p, 15), then one extra clock; well framed |
| Ht1632.BrightnessSaturates | MatrixDisplay.cpp:499 | every level from 15 up sends the same frame as level 15 |
| Ht1632.BrightnessLevelsDistinct | MatrixDisplay.cpp:499-504 | levels 0 .. 15 send pairwise different frames, so no level below the cap is lost |
| Ht1632.Brightness20Is15 | MatrixDisplay.cpp:499 | setBrightness(20) and setBrightness(15) send identical events |
| Ht1632.CommandsWithNopDecodes | MatrixDisplay.cpp:129-146 | group i of the command run decodes to command i and ends with the extra clock |
| Ht1632.CommandsWithNopClocked | MatrixDisplay.cpp:129-146 | the command run only clocks data |
| Ht1632.InitFrameDecodes | MatrixDisplay.cpp:120-147 | initDisplay configures the pin, idles it high, selects the chip, sends mode 100 and then SYSDIS, COMS10, MSTMD or SLVMD, SYSEN, LEDON, BLOFF and PWM + 15, each with an extra clock; well framed |
| Ht1632.InitFrameFramed | MatrixDisplay.cpp:120-147 | the bring-up block leaves the chip deselected and clocks only while it is selected |
| Ht1632.TrackSelectAll | MatrixDisplay.cpp:318 | after the select loop every display 0 .. n-1 is selected |
| Ht1632.TrackReleaseAll | MatrixDisplay.cpp:329 | after the release loop none of them is |
| Ht1632.BroadcastWellFramed | MatrixDisplay.cpp:315-330 | selecting all, clocking, then releasing all is well framed |
| Ht1632.ClearAllFrameWritesOnes | MatrixDisplay.cpp:321-327 | as written, clear(paint) sends address 0 and then the value 15 in all 32 nibbles to every selected display; well framed |
| Ht1632.BlankAllFrameBlanks | MatrixDisplay.cpp:321-327 | the blanking frame writes 0 to all 64 RAM nibbles, so the nibble of every pixel x < 32, y < 8 is 0 |
| Framebuffer.CalcBit | MatrixDisplay.cpp:43 | rows 0..15 give the mask of bit y mod 8; rows 16..22 give 0 after the store into a byte |
| Framebuffer.XyToIndex | MatrixDisplay.cpp:337-347 | the index is below 32 and congruent to x mod 32 |
| Framebuffer.DisplayXYToIndex | MatrixDisplay.cpp:349-354 | the RAM nibble address holds the column (x mod 128, from the uint8_t doubling) in its upper bits and, in its lowest bit, whether y is in the upper half (y >= 4) |
| Framebuffer.WriteAddress | MatrixDisplay.cpp:181-186 | setPixel writes column x mod 32 of region d mod 8: the uint8_t offset wraps from display 8 on |
| Framebuffer.ReadAddress | MatrixDisplay.cpp:151-163 | getPixel reads column x mod 32 of region 2d mod 8, because the region offset is added twice |
| Framebuffer.SetPixelIn | MatrixDisplay.cpp:178-207 | the buffer after setPixel has the same length |
| Framebuffer.PixelIn | MatrixDisplay.cpp:178-207 | the pixel as the write layout stores it: bit y mod 8 of column x mod 32 in region d mod 8; rows 16 .. 22 always read dark |
| Framebuffer.GetPixelAsWritten | MatrixDisplay.cpp:151-175 | getPixel returns 0 or 1: the bit CalcBit(y) of column x mod 32 in region 2d mod 8 (the offset added twice); for d = 0 that is exactly the pixel setPixel writes |
| Framebuffer.ZeroRegion | MatrixDisplay.cpp:284-293 | memset keeps the buffer's length |
| Framebuffer.PaintNibble | MatrixDisplay.cpp:216-222 | the painted value is the byte's upper nibble (below 16) for y >= 4; for y < 8 its bit y mod 4 is the pixel's bit |
| Framebuffer.SetBitToEffect | MatrixDisplay.cpp:190-206 | `|=` or `&= ~` with a single-bit mask sets that bit to the value and keeps every other bit |
| Framebuffer.WriteAddressInRegion | MatrixDisplay.cpp:181-185 | for an existing display, setPixel writes byte 32d + x mod 32, inside display d's own region |
| Framebuffer.ReadAddressDoubled | MatrixDisplay.cpp:154-163 | getPixel reads byte (64d + x mod 32) mod 256, the column of display 2d mod 8, and the write byte only for d = 0 |
| Framebuffer.SetPixelChangesOneBit | MatrixDisplay.cpp:178-207 | for y < 16, setPixel changes only bit RowBit(y) of byte WriteAddress(d, x), to value != 0; every other bit of every byte is kept |
| Framebuffer.SetPixelHighRowsNoOp | MatrixDisplay.cpp:43 | for rows 16..22 the mask is 0 and setPixel leaves the buffer as it was |
| Framebuffer.SetThenReadPixel | MatrixDisplay.cpp:178-207 | read through the write layout, a pixel reads back what setPixel stored, on every display |
| Framebuffer.SetPixelKeepsOthers | MatrixDisplay.cpp:178-207 | a pixel at another byte or bit is undisturbed by setPixel |
| Framebuffer.Display0RoundTrip | MatrixDisplay.cpp:151-207 | on display 0, getPixel after setPixel(value) returns 1 when value != 0 and 0 otherwise |
| Framebuffer.GetPixelMisreadsDisplay1 | MatrixDisplay.cpp:157-163 | on four blank displays, setPixel(1, 0, 0, 1) sets a bit of byte 32 while getPixel(1, 0, 0) reads byte 64 and returns 0 |
| Framebuffer.ColumnsAlias | MatrixDisplay.cpp:341 | columns x and x + 32 write and read the same byte |
| Framebuffer.ClearedRegionReadsZero | MatrixDisplay.cpp:279-297 | after clearing display d every pixel of d is off, and every pixel of every other display is unchanged |
| Framebuffer.PaintNibbleCarriesPixel | MatrixDisplay.cpp:216-223 | for y < 8 the receiver, reading the painted nibble LSB first, gets the pixel's bit at position y mod 4 |
| MatrixDriver.MatrixDisplay.constructor | MatrixDisplay.cpp:57-88 | the live buffer, the shadow (when built, else absent) and the pin table are all zero, 32 bytes per display; the data and clock pins are configured and driven high |
| MatrixDriver.MatrixDisplay.SelectDisplay | MatrixDisplay.cpp:357-362 | appends exactly one Select(d) |
| MatrixDriver.MatrixDisplay.ReleaseDisplay | MatrixDisplay.cpp:364-370 | appends exactly one Release(d) |
| MatrixDriver.MatrixDisplay.WriteDataLE | MatrixDisplay.cpp:385-396 | appends bits 0 .. n-1 of the byte, lowest first; a negative count sends nothing |
| MatrixDriver.MatrixDisplay.WriteDataBE | MatrixDisplay.cpp:399-418 | appends bits n-1 down to 0, then one extra clock when useNop is set |
| MatrixDriver.MatrixDisplay.PreCommand | MatrixDisplay.cpp:422-448 | appends the three mode bits 1, 0, 0 |
| MatrixDriver.MatrixDisplay.WriteCommand | MatrixDisplay.cpp:373-382 | appends exactly the command frame |
| MatrixDriver.MatrixDisplay.WriteNibbles | MatrixDisplay.cpp:269-276 | appends the nibble frame for the first nybbleCount values at the given address |
| MatrixDriver.MatrixDisplay.SyncDisplays | MatrixDisplay.cpp:238-267 | appends, display by display, the frame carrying that display's current region |
| MatrixDriver.MatrixDisplay.SyncRegion | MatrixDisplay.cpp:248-264 | one display's sync frame, carrying its 32 bytes in order |
| MatrixDriver.MatrixDisplay.ClearDisplay | MatrixDisplay.cpp:279-303 | zeroes exactly bytes [32d, 32d + 32) of the chosen buffer and leaves the other buffer as it was; syncs every display only with paint on the live buffer |
| MatrixDriver.MatrixDisplay.ClearAll | MatrixDisplay.cpp:305-331 | zeroes the whole chosen buffer and leaves the other as it was; the paint branch runs only on the live buffer |
| MatrixDriver.MatrixDisplay.PaintAllOnes | MatrixDisplay.cpp:315-330 | appends the all-display frame of 32 nibbles of 0xff |
| MatrixDriver.MatrixDisplay.SetPixel | MatrixDisplay.cpp:178-225 | the chosen buffer becomes SetPixelIn of its old self and the other is kept; with paint on the live buffer it appends one nibble frame at displayXYToIndex(x, y) carrying the byte's affected half, otherwise nothing |
| MatrixDriver.MatrixDisplay.GetPixel | MatrixDisplay.cpp:151-175 | returns 0 or 1: bit CalcBit(y) of column x mod 32 in region 2d mod 8 of the chosen buffer; on display 0 that is the pixel setPixel writes |
| MatrixDriver.MatrixDisplay.CopyBuffer | MatrixDisplay.cpp:480-484 | the shadow becomes equal to the live buffer, or nothing changes when there is no shadow |
| MatrixDriver.MatrixDisplay.ShiftLeft | MatrixDisplay.cpp:486-489 | every byte moves down two places; the last two take the two bytes past the end |
| MatrixDriver.MatrixDisplay.ShiftRight | MatrixDisplay.cpp:491-494 | every byte but the last two moves up two places; the first two keep their values |
| MatrixDriver.MatrixDisplay.SetBrightness | MatrixDisplay.cpp:496-506 | appends the brightness frame for PWM + min(pwmValue, 15) |
| MatrixDriver.MatrixDisplay.InitDisplay | MatrixDisplay.cpp:116-149 | records the pin; zeroes display d's region; appends the bring-up frame followed by a full sync |
| MatrixDriver.MatrixDisplay.SendBringUp | MatrixDisplay.cpp:125-147 | select, mode 100, the seven commands each with an extra clock, release |
| MatrixDriver.MatrixDisplay.GetDisplayCount | MatrixDisplay.cpp:464-467 | the count is 1 .. 4, fits the buffers at 32 bytes per display, and matches the pin table |
| MatrixDriver.MatrixDisplay.GetDisplayHeight | MatrixDisplay.cpp:469-472 | 8 rows, each CalcBit picks its own bit |
| MatrixDriver.MatrixDisplay.GetDisplayWidth | MatrixDisplay.cpp:474-477 | 32 columns, one region byte each; width times count is the buffer length |
| Toolbox.Int8 | DisplayToolbox.cpp:44-49 | storing an int into an int8_t gives the value congruent mod 256 in -128 .. 127, unchanged if it already fits |
| Toolbox.CalcDispNum | DisplayToolbox.cpp:150-159 | for x >= 32: display x / 32 (as uint8_t) and local x with x = 32 (x / 32) + local, 0 <= local < 32; below 32 (negative x included): (0, x) |
| Toolbox.CalcDispNumExamples | DisplayToolbox.cpp:150-159 | 35 gives (1, 3), 127 gives (3, 31), 31 gives (0, 31), -5 gives (0, -5) |
| Toolbox.CalcDispNumSplits | DisplayToolbox.cpp:150-159 | from 32 on the pair is (x / 32 mod 256, x mod 32); below 32 it is (0, x) |
| Toolbox.EitherOrderSameColumn | DisplayToolbox.cpp:139-146 | whichever argument evaluation order the compiler picks, the driver reaches the same byte to write and to read |
| Toolbox.LowColumnIsLocal | DisplayToolbox.cpp:150-159 | a column of display 0 is passed on unchanged |
| Toolbox.GetPixelReadAddress | DisplayToolbox.cpp:144-147 | for x >= 0, toolbox getPixel reads byte (64 (x / 32) + x mod 32) mod 256 |
| Toolbox.PlotAddress | DisplayToolbox.cpp:131-140 | for x >= 0, toolbox setPixel reaches byte 32 (x / 32) + x mod 32 in uint8_t, that is x mod 256 |
| Toolbox.Fits | DisplayToolbox.cpp:131-140 | for x >= 0 a call stays in the buffer exactly when x mod 256 is a byte of it and the row y mod 256 is below 23 |
| Toolbox.ApplyPlot | DisplayToolbox.cpp:139 | one unpainted toolbox setPixel keeps the buffer's length |
| Toolbox.ApplyPlots | DisplayToolbox.cpp:139 | a run of such calls keeps the buffer's length |
| Toolbox.ApplyPlotBit | DisplayToolbox.cpp:139 | one call sets exactly the bit it hits to its value and keeps all others |
| Toolbox.ApplyPlotsBit | DisplayToolbox.cpp:139 | after a run of calls, every bit holds the value of the last call hitting it, or its old value |
| Toolbox.PlotsInOneColour | DisplayToolbox.cpp:139 | after drawing in one colour, every plotted pixel on a row below 16 reads in that colour |
| Toolbox.PlotsKeepOthers | DisplayToolbox.cpp:139 | bits no call hits keep their values |
| Toolbox.ApplyPlotsAppend | DisplayToolbox.cpp:139 | two runs of calls one after the other are the run of their concatenation |
| Toolbox.BrightnessAll | DisplayToolbox.cpp:161-164 | the broadcast is 14 events per display |
| Toolbox.BrightnessAllFrame | DisplayToolbox.cpp:161-164 | frame k of the broadcast is display k's brightness frame, displays in order |
| Toolbox.BrightnessAllWellFramed | DisplayToolbox.cpp:161-164 | the broadcast leaves every chip deselected and never clocks with none selected |
| Toolbox.LineFrom | DisplayToolbox.cpp:115-127 | the loop from pixel cur on issues numpixels + 1 - cur calls |
| Toolbox.Setup | DisplayToolbox.cpp:70-113 | den = numpixels = the longer delta and numadd = the shorter; the two increments of each axis sum to the direction of the end point; 0 <= num < den, or num = 0 for a single point; each step moves a coordinate by at most one |
| Toolbox.LinePlots | DisplayToolbox.cpp:68-128 | drawLine issues max(\|x2 - x1\|, \|y2 - y1\|) + 1 calls, all in the given colour |
| Toolbox.LineFromAt | DisplayToolbox.cpp:115-127 | call j of the loop is at j major steps plus one minor step per numerator overflow so far |
| Toolbox.LineEndpoints | DisplayToolbox.cpp:96-127 | drawLine plots max(\|x2 - x1\|, \|y2 - y1\|) + 1 pixels, the first at (x1, y1) and the last at (x2, y2) |
| Toolbox.LineSteps | DisplayToolbox.cpp:76-127 | consecutive pixels differ by exactly one unit along the major axis and 0 or 1 along the minor one, towards the end point |
| Toolbox.LineNotEndpointSymmetric | DisplayToolbox.cpp:96-127 | (0,0)-(2,1) plots (1,1) in the middle, but (2,1)-(0,0) plots (1,0) |
| Toolbox.RectPlots | DisplayToolbox.cpp:168-175 | drawRectangle issues 2 (\|x2 - x\| + 1) + 2 (\|y2 - y\| + 1) calls for the uint8_t corners x2 = x + w and y2 = y + h, all in the given colour |
| Toolbox.RectCorners | DisplayToolbox.cpp:168-175 | all four corners (x, y), (x + w, y), (x, y + h), (x + w, y + h), in uint8_t, are plotted |
| Toolbox.Octants | DisplayToolbox.cpp:51-58 | one pass of the loop makes exactly eight setPixel calls |
| Toolbox.OctantsReflect | DisplayToolbox.cpp:51-58 | the eight calls are all in the given colour, each at offset (±xoff, ±yoff) or (±yoff, ±xoff) from the centre |
| Toolbox.CircleFromLength | DisplayToolbox.cpp:50-63 | the loop makes whole passes of eight calls; none when xoff > yoff, otherwise between one pass and yoff - xoff + 1 passes |
| Toolbox.CirclePlots | DisplayToolbox.cpp:42-64 | a radius of 128 or more is a negative int8_t, so nothing is drawn; a radius below 127 makes between 1 and radius + 1 passes of eight calls |
| Toolbox.CircleExtremes | DisplayToolbox.cpp:47-58 | the first pass plots the eight reflections of (0, r), among them (xp, yp ± r) and (xp ± r, yp) |
| Toolbox.CircleSymmetric | DisplayToolbox.cpp:50-63 | every plotted position has its mirror images in the vertical, horizontal and diagonal lines through the centre plotted too |
| Toolbox.CircleStateStep | DisplayToolbox.cpp:59-62 | for radius up to 63 each pass keeps balance = xoff² + yoff² - r² - yoff, in [-2 yoff, -1], with no int8_t wrap |
| Toolbox.CircleNearRadius | DisplayToolbox.cpp:42-64 | for radius 1 .. 63 every plotted pixel is within the midpoint tolerance of the circle of that radius |
| Toolbox.DisplayToolbox.constructor | DisplayToolbox.cpp:28-32 | the toolbox draws on the display it is given |
| Toolbox.DisplayToolbox.SetPixel | DisplayToolbox.cpp:131-140 | the live buffer becomes ApplyPlot of the call and the shadow is kept; with paint it sends one nibble frame to display calcDispNum(x), else nothing |
| Toolbox.DisplayToolbox.GetPixel | DisplayToolbox.cpp:144-147 | returns 0 or 1, the bit at the driver's doubled read offset; for a display-0 column, the pixel that setPixel writes |
| Toolbox.DisplayToolbox.DrawLine | DisplayToolbox.cpp:68-128 | the live buffer ends as the line's plot list leaves it; the shadow and the wire are untouched |
| Toolbox.DisplayToolbox.LineLoop | DisplayToolbox.cpp:115-127 | the loop issues exactly the calls of LineFrom, keeping 0 <= num < den |
| Toolbox.DisplayToolbox.LineBody | DisplayToolbox.cpp:117-126 | one pass plots the current pixel and moves to the state that continues the same call list |
| Toolbox.DisplayToolbox.DrawCircle | DisplayToolbox.cpp:42-64 | the live buffer ends as the circle's plot list leaves it; the loop terminates |
| Toolbox.DisplayToolbox.CircleBody | DisplayToolbox.cpp:51-62 | the eight calls, then xoff + 1 and, when the new balance is not negative, yoff - 1 and the balance reduced by twice it |
| Toolbox.DisplayToolbox.PlotOctants | DisplayToolbox.cpp:51-58 | the eight calls in source order |
| Toolbox.DisplayToolbox.DrawRectangle | DisplayToolbox.cpp:168-175 | exactly four drawLine calls (left, right, top, bottom); `filled` has no effect |
| Toolbox.DisplayToolbox.SetBrightness | DisplayToolbox.cpp:161-164 | appends display k's brightness frame for k = 0 .. count-1 in order |
| RollingDemo.LifeRule | examples/RollingDemo/applet/RollingDemo.cpp:95-109 | for a cell that reads 0 or 1, the result is 0 or 1 and is 1 exactly when Conway's B3/S23 rule makes the cell live |
| RollingDemo.ShadowRead | examples/RollingDemo/applet/RollingDemo.cpp:86-93 | a shadow read is 0 or 1; for a display-0 column it is the bit of that column byte |
| RollingDemo.Neighbours | examples/RollingDemo/applet/RollingDemo.cpp:86-93 | the neighbour sum is at most 8 |
| RollingDemo.NewValue | examples/RollingDemo/applet/RollingDemo.cpp:86-109 | the value written is 0 or 1 |
| RollingDemo.ReadIsCell | examples/RollingDemo/applet/RollingDemo.cpp:86-93 | a read of display 0 is the pixel of the shadow image |
| RollingDemo.NeighboursAreCells | examples/RollingDemo/applet/RollingDemo.cpp:86-93 | away from the edges the eight reads count the live neighbours of the shadow image |
| RollingDemo.InteriorIsConway | examples/RollingDemo/applet/RollingDemo.cpp:86-109 | away from the edges the value computed is Conway's next state of the cell |
| RollingDemo.EdgeReads | examples/RollingDemo/applet/RollingDemo.cpp:86-93 | row 8 reads row 0; on one display column 32 reads byte 64, past the 32-byte shadow |
| RollingDemo.LifePlots | examples/RollingDemo/applet/RollingDemo.cpp:84-111 | a generation makes 7 calls per column, for columns 1 .. X_MAX - 1 |
| RollingDemo.LifePlotAt | examples/RollingDemo/applet/RollingDemo.cpp:84-111 | call 7 (x - 1) + (y - 1) writes cell (x, y) with the value computed for it |
| RollingDemo.LifePlotsRaster | examples/RollingDemo/applet/RollingDemo.cpp:84-85 | the calls are in x-outer, y-inner order |
| RollingDemo.RasterWrites | examples/RollingDemo/applet/RollingDemo.cpp:84-111 | in that order each cell is written once, and ends with its own call's value |
| RollingDemo.LifeCellWritten | examples/RollingDemo/applet/RollingDemo.cpp:84-111 | after a generation each cell 1 <= x < X_MAX, 1 <= y < 8 holds the value the rule computed |
| RollingDemo.LifeKeepsBorder | examples/RollingDemo/applet/RollingDemo.cpp:84-85 | row 0, column 0 and every column from X_MAX on keep every bit |
| RollingDemo.GenerationIsConway | examples/RollingDemo/applet/RollingDemo.cpp:84-111 | inside display 0, away from its edges, a generation writes Conway's next state of the shadow image into the live buffer |
| RollingDemo.ReadShadow | examples/RollingDemo/applet/RollingDemo.cpp:86-93 | the toolbox shadow read equals the window read, including past-the-end reads |
| RollingDemo.WindowRead | examples/RollingDemo/applet/RollingDemo.cpp:86-93 | a read lands in the shadow buffer, or past its end in the bytes beyond it |
| RollingDemo.ReadNeighbours | examples/RollingDemo/applet/RollingDemo.cpp:86-93 | the eight shadow reads, in the demo's order, sum to the neighbour count of the shadow window |
| RollingDemo.LifeCell | examples/RollingDemo/applet/RollingDemo.cpp:86-111 | the eight reads and the rule make one unpainted live write of the computed value; the shadow and the wire are untouched |
| RollingDemo.LifeGeneration | examples/RollingDemo/applet/RollingDemo.cpp:38-39 | with X_MAX = count (width - 1) + 1 and Y_MAX = height, the live buffer ends as the generation's calls leave it; only the shadow is read |
| RollingDemo.XMax | examples/RollingDemo/applet/RollingDemo.cpp:38 | X_MAX = count (width - 1) + 1 reaches into the last display and stays within the buffer; on one display it is 32, one column past it |
| RollingDemo.LifeColumns | examples/RollingDemo/applet/RollingDemo.cpp:84-113 | the column loop makes the generation's calls in order |
| RollingDemo.LifeStep | examples/RollingDemo/applet/RollingDemo.cpp:84-113 | one pass of the column loop extends the calls by column x |
| RollingDemo.ColumnPlots | examples/RollingDemo/applet/RollingDemo.cpp:85-111 | one column is 7 calls |
| RollingDemo.LifeColumn | examples/RollingDemo/applet/RollingDemo.cpp:85-112 | the row loop makes column x's calls, rows 1 .. 7 in order |
| RollingDemo.LifeRound | examples/RollingDemo/applet/RollingDemo.cpp:84-118 | a generation, then a sync that sends that image, then copyBuffer, so the next generation reads it |
| RollingDemo.GlyphIndex | examples/RollingDemo/applet/RollingDemo.cpp:271-280 | letters of either case go to 1 .. 26, digits to 27 .. 36, space to 0, any other char to itself |
| RollingDemo.GlyphIndexDistinguishes | examples/RollingDemo/applet/RollingDemo.cpp:271-280 | on letters, digits and space the index is 0 .. 36, and two chars share it exactly when they are equal or the same letter in the two cases |
| RollingDemo.ShiftedMask | examples/RollingDemo/applet/RollingDemo.cpp:284 | 64 >> row is the mask of bit 6 - row |
| RollingDemo.Dot | examples/RollingDemo/applet/RollingDemo.cpp:284-287 | the value drawChar plots is 0 or 1, and 1 exactly when bit 6 - row of the column byte is set |
| RollingDemo.GlyphPlots | examples/RollingDemo/applet/RollingDemo.cpp:281-288 | n glyph columns make 7 n calls |
| RollingDemo.DotColumn | examples/RollingDemo/applet/RollingDemo.cpp:283-288 | one glyph column is 7 calls |
| RollingDemo.CharPlots | examples/RollingDemo/applet/RollingDemo.cpp:268-290 | drawChar makes 35 calls |
| RollingDemo.CharPlotAt | examples/RollingDemo/applet/RollingDemo.cpp:281-288 | call 7 col + row sets the dot of row `row` of column byte col |
| RollingDemo.CharDrawsGlyph | examples/RollingDemo/applet/RollingDemo.cpp:281-288 | every pixel (x + col, y + row) of the cell on a row below 16 ends with bit 6 - row of font byte col |
| RollingDemo.DrawDot | examples/RollingDemo/applet/RollingDemo.cpp:284-287 | one dot: setPixel with 1 when lit, else 0 |
| RollingDemo.DrawDotColumn | examples/RollingDemo/applet/RollingDemo.cpp:283-288 | the row loop makes one column's 7 calls in order |
| RollingDemo.DrawChar | examples/RollingDemo/applet/RollingDemo.cpp:268-290 | the live buffer ends as drawChar's calls leave it; the shadow and the wire are untouched |
| RollingDemo.DrawCharColumn | examples/RollingDemo/applet/RollingDemo.cpp:281-289 | one pass of the column loop extends the calls by column col |
| RollingDemo.StringPlots | examples/RollingDemo/applet/RollingDemo.cpp:296-300 | a string of n chars makes 35 n calls |
| RollingDemo.StringPlotsChar | examples/RollingDemo/applet/RollingDemo.cpp:296-300 | the calls for char i are drawChar's calls at column x + 6 i mod 256 |
| RollingDemo.CharKeepsLeft | examples/RollingDemo/applet/RollingDemo.cpp:296-300 | a char drawn at cx, not wrapping, keeps every bit of the columns left of cx |
| RollingDemo.CharShowsGlyph | examples/RollingDemo/applet/RollingDemo.cpp:281-288 | a char drawn at cx, not wrapping, shows its glyph in columns cx .. cx + 4 |
| RollingDemo.StringShowsChar | examples/RollingDemo/applet/RollingDemo.cpp:294-301 | when the string ends by column 256, every pixel of char i's cell on a row below 16 shows that char's glyph, whatever the later chars draw |
| RollingDemo.CharColumnNext | examples/RollingDemo/applet/RollingDemo.cpp:299 | x += 6 in uint8_t moves from char n's column to char n + 1's |
| RollingDemo.DrawnCount | examples/RollingDemo/applet/RollingDemo.cpp:296 | drawString draws at most 128 chars, and the whole string when it has at most 128 |
| RollingDemo.SizeT | examples/RollingDemo/applet/RollingDemo.cpp:296 | the char counter as the 16-bit size_t it is compared with: congruent mod 65536, below 65536 |
| RollingDemo.CounterStep | examples/RollingDemo/applet/RollingDemo.cpp:296 | i++ on a char adds one, except that 127 wraps to -128 |
| RollingDemo.CounterInRange | examples/RollingDemo/applet/RollingDemo.cpp:296 | while the loop runs, the counter is the number of chars drawn so far and is below DrawnCount |
| RollingDemo.CounterAtEnd | examples/RollingDemo/applet/RollingDemo.cpp:296 | when the loop stops, exactly DrawnCount chars have been drawn |
| RollingDemo.DrawString | examples/RollingDemo/applet/RollingDemo.cpp:294-301 | the live buffer ends as the calls of the first DrawnCount chars leave it, char i at column x + 6 i; shadow and wire untouched |
| RollingDemo.DrawStringStep | examples/RollingDemo/applet/RollingDemo.cpp:297-300 | one pass draws char n, advances the column by 6 and the counter by one with char wrap-around |

## Left out

- Pin I/O: `bitBlast` and `pinMode` become one abstract event each; `fWriteA`/`fWriteB` and the port registers are not modelled.
- Timing: the `_nop()` delays are dropped; the event order is kept.
- Debug output: `Serial.print` in `initDisplay` and `dumpByte` write to the serial console only.
- Allocation: `malloc`, `free` and the destructors are replaced by arrays that Dafny allocates and frees.
- The HT1632 opcodes are parameters (`Ht1632.Codes`), since `ht1632_cmd.h` is not part of this model.
- MatrixDriver.MatrixDisplay.constructor: it requires 1 to 4 displays, the range the constructor's declaration documents (MatrixDisplay.h:85). From 8 displays on, the `uint8_t` buffer size at MatrixDisplay.cpp:67 would also wrap.
- MatrixDriver.MatrixDisplay.WriteDataLE: it requires a bit count of at most 16. For more, `data >> i` on a 16-bit `int` is undefined. Every caller passes 1 to 8.
- MatrixDriver.MatrixDisplay.WriteDataBE: it requires a bit count from -127 to 16. Above 16 the shift is undefined, as for writeDataLE. At -128 the `int8_t` counter `bitCount - 1` wraps to 127, and the loop would shift by up to 127. Every caller passes 3, 7 or 8.
- Framebuffer.CalcBit: rows from 23 on are outside the model, because `1 << (y - 8)` overflows the 16-bit `int`. The pixel operations require y < 23.
- MatrixDriver.MatrixDisplay.WriteNibbles: it requires nybbleCount < 128. For 128 .. 255 the `int8_t` counter at MatrixDisplay.cpp:274 wraps from 127 to -128 and stays below the count, so the loop never ends and reads before `data`. The only caller passes 1 (MatrixDisplay.cpp:223).
- MatrixDriver.MatrixDisplay.ShiftLeft: the source's overlapping `memcpy` is modelled with `memmove` semantics. The two bytes read past the end of the buffer are a parameter.
- MatrixDriver.MatrixDisplay.ShiftRight: its overlapping `memcpy` is likewise modelled with `memmove` semantics.
- Toolbox.DisplayToolbox.SetPixel: the compiler's argument evaluation order is a parameter (`adjustedFirst`). It changes only the nibble address of the paint path.
- Toolbox.LinePlots: drawLine requires each delta to be at most 63 and the end points to fit a signed `char`. Larger values would overflow `num` or the coordinates.
- Toolbox.CirclePlots: a radius of 127 is excluded. The loop model (`Toolbox.CircleFrom`) requires yoff <= 126. Nothing is lost: the first pass of a radius-127 circle plots rows yp and (yp + 127) mod 256, and no `uint8_t` yp puts both below 23, the rows the model covers.
- Toolbox.CircleNearRadius: the result holds only for radius 1 .. 63, where no `int8_t` wraps.
- Toolbox.CircleFrom: drawCircle's update expressions `xoff++ + xoff` and `--yoff + yoff` are unsequenced in C++. The model reads them left to right: the balance gains xoff + (xoff + 1), then loses 2 (yoff - 1).
- RollingDemo.DrawString: it requires a string of at most 65408 chars (the wrapped counter's size_t value). The font is a parameter, because `font.h` is not part of this model.
- RollingDemo.LifeGeneration: reads past the end of the shadow buffer go to `beyond`, a parameter that stands for the memory after it. The model does not capture that memory aliasing the live buffer, or changing during a generation.
- Y_MAX is 8, so a generation rewrites rows 1 .. 7 only; this follows the code.
- The acorn seeding, the delays, the round count, `random()`, and the other demos and main loops (`demo_bouncyline`, `demoText`, `demoBouncyCircle`, `Simple.cpp`) have no logic of their own beyond sequencing.
- The header files hold only declarations and default arguments. Their field names are used here.

## Findings

| source | as written | input that shows it | evidently intended | confidence | as-written member | corrected member |
|---|---|---|---|---|---|---|
| MatrixDisplay.cpp:157-163 | getPixel adds 32·displayNum to the address twice and reads byte (64d + (x & 31)) mod 256 | four displays, all blank: setPixel(1, 0, 0, 1) sets byte 32, then getPixel(1, 0, 0) reads byte 64 and returns 0 | the offset added once, so getPixel returns what setPixel stored on every display | high; not executed | Framebuffer.GetPixelMisreadsDisplay1 | Framebuffer.SetThenReadPixel |
| MatrixDisplay.cpp:324-327 | clear(paint = true) streams 32 nibbles of 0xff after address 0, under the comment "Write nada" | any clear(true, false): the receiver stores 15 at RAM addresses 0 .. 31 and leaves 32 .. 63 as they were | zero written to all 64 nibbles, so the displays go dark like the zeroed buffer | medium; not executed | Ht1632.ClearAllFrameWritesOnes | Ht1632.BlankAllFrameBlanks |

The driver class keeps both behaviours as written, so that the toolbox and
demo models built on it inherit them.

- Each corrected definition stands beside the as-written one, with its
  property proved.
- For getPixel, `Framebuffer.PixelIn` is the corrected read. The toolbox
  lemmas (`Toolbox.PlotsInOneColour`) are stated through it.
- For clear, `Ht1632.BlankAllFrame` is the corrected frame.
