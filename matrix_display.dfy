/**
 * The MatrixDisplay driver: a chain of up to four HT1632 boards sharing one
 * clock and one data line, each with its own chip-select line.  The live
 * framebuffer, the optional shadow framebuffer and the pin table are arrays
 * changed in place; everything the driver clocks onto the bus is appended to
 * `wire`.  Each method is specified by the pure functions of Framebuffer and
 * Ht1632.
 */
module MatrixDriver {
  import opened Wrappers
  import opened Wire
  import opened Framebuffer
  import opened Ht1632

  class MatrixDisplay {
    const displayCount: nat
    const dataPin: uint8
    const clkPin: uint8
    const codes: Codes
    /** pDisplayBuffers: displayCount regions of BACKBUFFER_SIZE bytes. */
    const displayBuffers: array<Byte>
    /** pShadowBuffers: allocated only when the constructor is asked to build it. */
    const shadowBuffers: Option<array<Byte>>
    /** pDisplayPins: the chip-select pin of each display. */
    const displayPins: array<uint8>
    /** Every event the driver has put on the bus, oldest first. */
    var wire: seq<Event>

    ghost predicate Valid()
    {
      1 <= displayCount <= 4 &&
      displayBuffers.Length == BackBufferSize * displayCount &&
      displayPins.Length == displayCount &&
      (shadowBuffers.Some? ==>
        shadowBuffers.value.Length == BackBufferSize * displayCount &&
        shadowBuffers.value != displayBuffers)
    }

    /** The shadow array, if there is one, as a frame. */
    function ShadowFrame(): set<object>
    {
      if shadowBuffers.Some? then {shadowBuffers.value} else {}
    }

    /** The live framebuffer. */
    function Live(): seq<Byte>
      reads displayBuffers
    {
      displayBuffers[..]
    }

    /** The shadow framebuffer, None when it was not built. */
    function Shadow(): Option<seq<Byte>>
      reads ShadowFrame()
    {
      if shadowBuffers.Some? then Some(shadowBuffers.value[..]) else None
    }

    /** The pin table. */
    function Pins(): seq<uint8>
      reads displayPins
    {
      displayPins[..]
    }

    /** The buffer a `useShadow` flag picks. */
    function View(useShadow: bool): seq<Byte>
      requires useShadow ==> shadowBuffers.Some?
      reads displayBuffers, ShadowFrame()
    {
      if useShadow then shadowBuffers.value[..] else displayBuffers[..]
    }

    /**
     * Allocates zeroed buffers and a zeroed pin table, then configures the
     * clock and data lines as outputs and drives both high.
     */
    constructor (numDisplays: uint8, clkPin: uint8, dataPin: uint8, buildShadow: bool, codes: Codes)
      requires 1 <= numDisplays <= 4
      ensures Valid()
      ensures displayCount == numDisplays && this.clkPin == clkPin && this.dataPin == dataPin
      ensures this.codes == codes
      ensures Live() == seq(BackBufferSize * numDisplays, i => 0 as Byte)
      ensures Shadow() == if buildShadow then Some(seq(BackBufferSize * numDisplays, i => 0 as Byte)) else None
      ensures Pins() == seq(numDisplays, i => 0 as uint8)
      ensures wire == [PinMode(dataPin), PinMode(clkPin), DataLevel(true), ClockLevel(true)]
      ensures fresh(displayBuffers) && fresh(displayPins)
      ensures shadowBuffers.Some? ==> fresh(shadowBuffers.value)
    {
      var sz := BackBufferSize * numDisplays;
      displayCount := numDisplays;
      this.clkPin := clkPin;
      this.dataPin := dataPin;
      this.codes := codes;
      displayBuffers := new Byte[sz](i => 0);
      if buildShadow {
        var s := new Byte[sz](i => 0);
        assert s[..] == seq(sz, i => 0 as Byte);
        shadowBuffers := Some(s);
      } else {
        shadowBuffers := None;
      }
      displayPins := new uint8[numDisplays](i => 0);
      wire := [PinMode(dataPin), PinMode(clkPin), DataLevel(true), ClockLevel(true)];
    }

    // -------------------------------------------------------------------------
    // Bus primitives

    /** selectDisplay: drives the display's chip-select line low. */
    method SelectDisplay(d: uint8)
      requires Valid() && d < displayCount
      modifies this
      ensures wire == old(wire) + [Select(d)]
    {
      wire := wire + [Select(d)];
    }

    /** releaseDisplay: drives the display's chip-select line high. */
    method ReleaseDisplay(d: uint8)
      requires Valid() && d < displayCount
      modifies this
      ensures wire == old(wire) + [Release(d)]
    {
      wire := wire + [Release(d)];
    }

    /**
     * writeDataLE: clocks out bit i of `data` for i = 0 .. bitCount-1.  The
     * byte is promoted to a 16-bit int, so bits 8 .. 15 are 0; a negative
     * count sends nothing.
     */
    method WriteDataLE(bitCount: int, data: Byte)
      requires -128 <= bitCount <= 16
      modifies this
      ensures wire == old(wire) + LEBits(if bitCount < 0 then 0 else bitCount, data)
    {
      var i := 0;
      while i < bitCount
        invariant 0 <= i && (bitCount >= 0 ==> i <= bitCount) && (bitCount < 0 ==> i == 0)
        invariant wire == old(wire) + LEBits(i, data)
      {
        assert LEBits(i + 1, data) == LEBits(i, data) + [Bit(BitAt(data, i))];
        wire := wire + [Bit(BitAt(data, i))];
        i := i + 1;
      }
    }

    /**
     * writeDataBE: clocks out bit i of `data` for i = bitCount-1 down to 0,
     * then one extra clock pulse when `useNop` is set.  bitCount = -128
     * would make the int8_t counter bitCount - 1 wrap to 127, so the count
     * starts at -127.
     */
    method WriteDataBE(bitCount: int, data: Byte, useNop: bool)
      requires -127 <= bitCount <= 16
      modifies this
      ensures !useNop ==> wire == old(wire) + BEBits(if bitCount < 0 then 0 else bitCount, data)
      ensures useNop ==> wire == old(wire) + BEBits(if bitCount < 0 then 0 else bitCount, data) + [ExtraClk]
    {
      ghost var n := if bitCount < 0 then 0 else bitCount;
      var i := bitCount - 1;
      while i >= 0
        invariant bitCount < 0 ==> i == bitCount - 1 && wire == old(wire)
        invariant bitCount >= 0 ==> -1 <= i < n && wire == old(wire) + BEBits(n, data)[..n - 1 - i]
      {
        assert BEBits(n, data)[..n - i] == BEBits(n, data)[..n - 1 - i] + [Bit(BitAt(data, i))];
        wire := wire + [Bit(BitAt(data, i))];
        i := i - 1;
      }
      assert bitCount >= 0 ==> BEBits(n, data)[..n - 1 - i] == BEBits(n, data);
      if useNop {
        wire := wire + [ExtraClk];
      }
    }

    /** preCommand: the three mode bits 1, 0, 0. */
    method PreCommand()
      modifies this
      ensures wire == old(wire) + PreCommandBits
    {
      wire := wire + [Bit(true)];
      wire := wire + [Bit(false)];
      wire := wire + [Bit(false)];
    }

    /** writeCommand: one command to one display. */
    method WriteCommand(d: uint8, command: Byte)
      requires Valid() && d < displayCount
      modifies this
      ensures wire == old(wire) + CommandFrame(codes, d, command)
    {
      CommandFrameShape(wire, codes, d, command);
      SelectDisplay(d);
      wire := wire + [DataLevel(true)];
      WriteDataBE(3, codes.idCmd, false);
      WriteDataBE(8, command, false);
      WriteDataBE(1, 0, false);
      wire := wire + [DataLevel(false)];
      ReleaseDisplay(d);
    }

    /** writeNibbles: `nybbleCount` nibbles from `data` written at RAM address `addr`. */
    method WriteNibbles(d: uint8, addr: Byte, data: seq<Byte>, nybbleCount: uint8)
      requires Valid() && d < displayCount
      requires nybbleCount < 128 && nybbleCount <= |data|
      modifies this
      ensures wire == old(wire) + NibbleFrame(codes, d, addr, data[..nybbleCount])
    {
      SelectDisplay(d);
      WriteDataBE(3, codes.idWr, false);
      WriteDataBE(7, addr, false);
      ghost var start := wire;
      ghost var ns := data[..nybbleCount];
      NibbleFrameShape(old(wire), codes, d, addr, ns);
      var i := 0;
      while i < nybbleCount
        invariant 0 <= i <= nybbleCount
        invariant wire == start + Nibbles(ns[..i])
      {
        NibblesStep(start, ns, i);
        WriteDataLE(4, data[i]);
        i := i + 1;
      }
      assert ns[..i] == ns;
      ReleaseDisplay(d);
    }

    /** syncDisplays: every display's region, in display order, each from RAM address 0. */
    method SyncDisplays()
      requires Valid()
      modifies this
      ensures wire == old(wire) + SyncTrace(codes, Live(), displayCount)
    {
      var dispNum := 0;
      while dispNum < displayCount
        invariant 0 <= dispNum <= displayCount
        invariant wire == old(wire) + SyncTrace(codes, Live(), dispNum)
      {
        SyncTraceStep(old(wire), codes, Live(), dispNum);
        SyncRegion(dispNum);
        dispNum := dispNum + 1;
      }
    }

    /**
     * One pass of the loop of syncDisplays: the display selected, a write
     * header for address 0, its region byte by byte, and the display released.
     */
    method SyncRegion(dispNum: uint8)
      requires Valid() && dispNum < displayCount
      modifies this
      ensures wire == old(wire) + SyncFrame(codes, dispNum, Region(Live(), dispNum))
    {
      var bufferOffset := BackBufferSize * dispNum;
      ghost var region := Region(Live(), dispNum);
      SyncFrameShape(wire, codes, dispNum, region);
      SelectDisplay(dispNum);
      WriteDataBE(3, codes.idWr, false);
      WriteDataBE(7, 0, false);
      ghost var start := wire;
      var addr := 0;
      while addr < BackBufferSize
        invariant 0 <= addr <= BackBufferSize
        invariant wire == start + BytesLE(region[..addr])
      {
        var value := displayBuffers[addr + bufferOffset];
        assert value == region[addr];
        BytesStep(start, region, addr);
        WriteDataLE(8, value);
        addr := addr + 1;
      }
      assert region[..addr] == region;
      ReleaseDisplay(dispNum);
    }

    /** memset(a + lo, 0, n). */
    static method ZeroBytes(a: array<Byte>, lo: nat, n: nat)
      requires lo + n <= a.Length
      modifies a
      ensures a[..] == ZeroRegion(old(a[..]), lo, n)
    {
      forall i | lo <= i < lo + n {
        a[i] := 0;
      }
    }

    /**
     * clear(displayNum, paint, useShadow): zeroes display d's region of the
     * chosen buffer; with `paint` and the live buffer, then syncs every display.
     */
    method ClearDisplay(d: uint8, paint: bool, useShadow: bool)
      requires Valid() && d < displayCount
      requires useShadow ==> shadowBuffers.Some?
      modifies this, displayBuffers, ShadowFrame()
      ensures useShadow ==>
        Shadow() == Some(ZeroRegion(old(View(true)), BackBufferSize * d, BackBufferSize)) &&
        Live() == old(Live())
      ensures !useShadow ==>
        Live() == ZeroRegion(old(Live()), BackBufferSize * d, BackBufferSize) &&
        Shadow() == old(Shadow())
      ensures wire == old(wire) + if paint && !useShadow then SyncTrace(codes, Live(), displayCount) else []
    {
      if useShadow {
        ZeroBytes(shadowBuffers.value, BackBufferSize * d, BackBufferSize);
      } else {
        ZeroBytes(displayBuffers, BackBufferSize * d, BackBufferSize);
      }
      if paint && !useShadow {
        SyncDisplays();
      }
    }

    /**
     * clear(paint, useShadow): zeroes the whole chosen buffer; with `paint`
     * and the live buffer, selects every display and streams 32 nibbles of
     * 0xff to all of them at once.
     */
    method ClearAll(paint: bool, useShadow: bool)
      requires Valid()
      requires useShadow ==> shadowBuffers.Some?
      modifies this, displayBuffers, ShadowFrame()
      ensures useShadow ==>
        Shadow() == Some(ZeroRegion(old(View(true)), 0, BackBufferSize * displayCount)) &&
        Live() == old(Live())
      ensures !useShadow ==>
        Live() == ZeroRegion(old(Live()), 0, BackBufferSize * displayCount) &&
        Shadow() == old(Shadow())
      ensures wire == old(wire) + if paint && !useShadow then ClearAllFrame(codes, displayCount) else []
    {
      if useShadow {
        ZeroBytes(shadowBuffers.value, 0, BackBufferSize * displayCount);
      } else {
        ZeroBytes(displayBuffers, 0, BackBufferSize * displayCount);
      }
      if paint && !useShadow {
        PaintAllOnes();
      }
    }

    /**
     * The paint branch of clear(): every display selected at once, a write
     * header for address 0, 32 nibbles of 0xff, every display released.
     */
    method PaintAllOnes()
      requires Valid()
      modifies this
      ensures wire == old(wire) + ClearAllFrame(codes, displayCount)
    {
      ghost var ones := seq(32, j => 0xff as Byte);
      ClearAllFrameShape(old(wire), codes, displayCount);
      var i := 0;
      while i < displayCount
        invariant 0 <= i <= displayCount
        invariant wire == old(wire) + SelectAll(i)
      {
        SelectAllStep(old(wire), i);
        SelectDisplay(i);
        i := i + 1;
      }
      WriteDataBE(3, codes.idWr, false);
      WriteDataBE(7, 0, false);
      ghost var start := wire;
      var k := 0;
      while k < 32
        invariant 0 <= k <= 32
        invariant wire == start + Nibbles(ones[..k])
      {
        NibblesStep(start, ones, k);
        WriteDataLE(4, 0xff);
        k := k + 1;
      }
      assert ones[..k] == ones;
      ghost var mid := wire;
      i := 0;
      while i < displayCount
        invariant 0 <= i <= displayCount
        invariant wire == mid + ReleaseAll(i)
      {
        ReleaseAllStep(mid, i);
        ReleaseDisplay(i);
        i := i + 1;
      }
    }

    // -------------------------------------------------------------------------
    // Pixels

    /**
     * setPixel: sets or clears bit CalcBit(y) of the byte at WriteAddress(d, x)
     * in the chosen buffer; with `paint` on the live buffer it also writes
     * the affected nibble to the display.
     */
    method SetPixel(d: uint8, x: uint8, y: uint8, value: uint8, paint: bool, useShadow: bool)
      requires Valid() && WriteAddress(d, x) < BackBufferSize * displayCount && y < 23
      requires useShadow ==> shadowBuffers.Some?
      requires paint && !useShadow ==> d < displayCount
      modifies this, displayBuffers, ShadowFrame()
      ensures useShadow ==>
        Shadow() == Some(SetPixelIn(old(View(true)), d, x, y, value != 0)) && Live() == old(Live())
      ensures !useShadow ==>
        Live() == SetPixelIn(old(Live()), d, x, y, value != 0) && Shadow() == old(Shadow())
      ensures wire == old(wire) +
        if paint && !useShadow
        then NibbleFrame(codes, d, DisplayXYToIndex(x, y) as Byte, [PaintNibble(Live()[WriteAddress(d, x)], y)])
        else []
    {
      var address := XyToIndex(x, y);
      address := (address + BackBufferSize * d) % 256;
      var bit := CalcBit(y);
      var buf := if useShadow then shadowBuffers.value else displayBuffers;
      buf[address] := SetBitTo(buf[address], bit, value != 0);
      if useShadow {
        return;
      }
      if paint {
        var dispAddress := DisplayXYToIndex(x, y);
        var nibble := displayBuffers[address];
        if y >= 4 {
          nibble := displayBuffers[address] >> 4;
        }
        WriteNibbles(d, dispAddress as Byte, [nibble], 1);
        assert [nibble][..1] == [nibble];
      }
    }

    /**
     * getPixel, as written: the region offset is added twice, so display d
     * is read at column x mod 32 of region 2d mod 8.
     */
    function GetPixel(d: uint8, x: uint8, y: uint8, useShadow: bool): (r: uint8)
      requires Valid() && ReadAddress(d, x) < BackBufferSize * displayCount && y < 23
      requires useShadow ==> shadowBuffers.Some?
      reads displayBuffers, ShadowFrame()
      ensures r == 0 || r == 1
      ensures BackBufferSize * ((2 * d) % 8) + x % 32 < |View(useShadow)|
      ensures r == 1 <==> ReadBit(View(useShadow), BackBufferSize * ((2 * d) % 8) + x % 32, y)
      ensures d == 0 ==> (r == 1 <==> PixelIn(View(useShadow), 0, x, y))
    {
      GetPixelAsWritten(View(useShadow), d, x, y)
    }

    // -------------------------------------------------------------------------
    // Whole-buffer operations

    /** copyBuffer: snapshots the live buffer into the shadow, or does nothing without one. */
    method CopyBuffer()
      requires Valid()
      modifies ShadowFrame()
      ensures Shadow() == if shadowBuffers.Some? then Some(Live()) else None
      ensures Live() == old(Live())
    {
      if shadowBuffers.Some? {
        var s := shadowBuffers.value;
        forall i | 0 <= i < s.Length {
          s[i] := displayBuffers[i];
        }
        assert s[..] == displayBuffers[..];
      }
    }

    /**
     * shiftLeft with memmove semantics: every byte moves down two places;
     * the last two bytes receive the two bytes `past` that lie beyond the
     * end of the buffer.
     */
    method ShiftLeft(past: seq<Byte>)
      requires Valid() && |past| == 2
      modifies displayBuffers
      ensures Live() == old(Live())[2..] + past
    {
      var n := displayBuffers.Length;
      forall i | 0 <= i < n {
        displayBuffers[i] := if i + 2 < n then displayBuffers[i + 2] else past[i + 2 - n];
      }
    }

    /** shiftRight with memmove semantics: every byte but the last two moves up two places. */
    method ShiftRight()
      requires Valid()
      modifies displayBuffers
      ensures Live() == old(Live())[..2] + old(Live())[..|old(Live())| - 2]
    {
      var n := displayBuffers.Length;
      forall i | 2 <= i < n {
        displayBuffers[i] := displayBuffers[i - 2];
      }
    }

    // -------------------------------------------------------------------------
    // Configuration

    /** setBrightness: PWM + pwmValue, with the value capped at 15. */
    method SetBrightness(d: uint8, pwmValue: Byte)
      requires Valid() && d < displayCount
      modifies this
      ensures wire == old(wire) + BrightnessFrame(codes, d, pwmValue)
    {
      var level := pwmValue;
      if level > 15 {
        level := 15;
      }
      // The source's `else if (pwmValue < 0)` branch cannot be taken by an unsigned value.
      var command := codes.pwm + level;
      BrightnessFrameShape(wire, codes, d, pwmValue, command);
      SelectDisplay(d);
      PreCommand();
      WriteDataBE(8, command, true);
      ReleaseDisplay(d);
    }

    /**
     * initDisplay: records the display's select pin, configures it and idles
     * it high, sends the bring-up commands, then clears the display with
     * paint, which syncs every display.
     */
    method InitDisplay(d: uint8, pin: uint8, master: bool)
      requires Valid() && d < displayCount
      modifies this, displayPins, displayBuffers, ShadowFrame()
      ensures Pins() == old(Pins())[d := pin]
      ensures Live() == ZeroRegion(old(Live()), BackBufferSize * d, BackBufferSize)
      ensures Shadow() == old(Shadow())
      ensures wire == old(wire) + InitFrame(codes, d, pin, master) + SyncTrace(codes, Live(), displayCount)
    {
      displayPins[d] := pin;
      InitFrameShape(wire, codes, d, pin, master);
      wire := wire + [PinMode(pin)];
      ReleaseDisplay(d);
      SendBringUp(d, master);
      ClearDisplay(d, true, false);
    }

    /**
     * The command block of initDisplay: the display selected, the command
     * mode bits, the seven configuration commands each followed by an extra
     * clock, and the display released.
     */
    method SendBringUp(d: uint8, master: bool)
      requires Valid() && d < displayCount
      modifies this
      ensures wire == old(wire) + [Select(d)] + PreCommandBits
        + BEBits(8, codes.sysDis) + [ExtraClk] + BEBits(8, codes.coms10) + [ExtraClk]
        + BEBits(8, if master then codes.mstMd else codes.slvMd) + [ExtraClk]
        + BEBits(8, codes.sysEn) + [ExtraClk] + BEBits(8, codes.ledOn) + [ExtraClk]
        + BEBits(8, codes.blOff) + [ExtraClk] + BEBits(8, codes.pwm + 15) + [ExtraClk] + [Release(d)]
    {
      SelectDisplay(d);
      PreCommand();
      WriteDataBE(8, codes.sysDis, true);
      WriteDataBE(8, codes.coms10, true);
      if master {
        WriteDataBE(8, codes.mstMd, true);
      } else {
        WriteDataBE(8, codes.slvMd, true);
      }
      WriteDataBE(8, codes.sysEn, true);
      WriteDataBE(8, codes.ledOn, true);
      WriteDataBE(8, codes.blOff, true);
      WriteDataBE(8, codes.pwm + 15, true);
      ReleaseDisplay(d);
    }

    // -------------------------------------------------------------------------
    // Getters

    /** getDisplayCount. */
    function GetDisplayCount(): (n: uint8)
      requires Valid()
      ensures 1 <= n <= 4 && BackBufferSize * n == displayBuffers.Length && n == displayPins.Length
    {
      displayCount
    }

    /** getDisplayHeight: the rows of one display, one bit of a column byte each. */
    function GetDisplayHeight(): (h: uint8)
      ensures h == 8 && forall y: uint8 :: y < h ==> CalcBit(y) == BitMask(y)
    {
      8
    }

    /** getDisplayWidth: the columns of one display, one byte of its region each. */
    function GetDisplayWidth(): (w: uint8)
      requires Valid()
      ensures w == BackBufferSize && w * GetDisplayCount() == displayBuffers.Length
    {
      32
    }
  }

  // Each frame as the driver appends it, one event group at a time.

  lemma CommandFrameShape(w: seq<Event>, codes: Codes, d: int, cmd: Byte)
    ensures w + CommandFrame(codes, d, cmd) ==
      w + [Select(d)] + [DataLevel(true)] + BEBits(3, codes.idCmd) + BEBits(8, cmd) + BEBits(1, 0)
        + [DataLevel(false)] + [Release(d)]
  {}

  lemma SyncFrameShape(w: seq<Event>, codes: Codes, d: int, region: seq<Byte>)
    ensures w + SyncFrame(codes, d, region) ==
      w + [Select(d)] + BEBits(3, codes.idWr) + BEBits(7, 0) + BytesLE(region) + [Release(d)]
  {}

  lemma SyncTraceStep(w: seq<Event>, codes: Codes, buf: seq<Byte>, n: nat)
    requires BackBufferSize * (n + 1) <= |buf|
    ensures w + SyncTrace(codes, buf, n + 1) == w + SyncTrace(codes, buf, n) + SyncFrame(codes, n, Region(buf, n))
  {}

  lemma BytesStep(w: seq<Event>, bs: seq<Byte>, k: nat)
    requires k < |bs|
    ensures w + BytesLE(bs[..k + 1]) == w + BytesLE(bs[..k]) + LEBits(8, bs[k])
  {
    assert bs[..k + 1] == bs[..k] + [bs[k]];
    BytesLESnoc(bs[..k], bs[k]);
  }

  lemma NibblesStep(w: seq<Event>, ns: seq<Byte>, k: nat)
    requires k < |ns|
    ensures w + Nibbles(ns[..k + 1]) == w + Nibbles(ns[..k]) + LEBits(4, ns[k])
  {
    assert ns[..k + 1] == ns[..k] + [ns[k]];
    NibblesSnoc(ns[..k], ns[k]);
  }

  lemma SelectAllStep(w: seq<Event>, i: nat)
    ensures w + SelectAll(i + 1) == w + SelectAll(i) + [Select(i)]
  {
    assert SelectAll(i + 1) == SelectAll(i) + [Select(i)];
  }

  lemma ReleaseAllStep(w: seq<Event>, i: nat)
    ensures w + ReleaseAll(i + 1) == w + ReleaseAll(i) + [Release(i)]
  {
    assert ReleaseAll(i + 1) == ReleaseAll(i) + [Release(i)];
  }

  lemma ClearAllFrameShape(w: seq<Event>, codes: Codes, n: nat)
    ensures w + ClearAllFrame(codes, n) ==
      w + SelectAll(n) + BEBits(3, codes.idWr) + BEBits(7, 0) + Nibbles(seq(32, j => 0xff as Byte)) + ReleaseAll(n)
  {}

  lemma BrightnessFrameShape(w: seq<Event>, codes: Codes, d: int, p: Byte, command: Byte)
    requires command == codes.pwm + Clamp(p)
    ensures w + BrightnessFrame(codes, d, p) ==
      w + [Select(d)] + PreCommandBits + BEBits(8, command) + [ExtraClk] + [Release(d)]
  {
    assert NopClock(true) == [ExtraClk];
  }

  /** A trace followed by a nibble frame, as the driver builds it event group by event group. */
  lemma NibbleFrameShape(w: seq<Event>, codes: Codes, d: int, addr: Byte, ns: seq<Byte>)
    ensures w + NibbleFrame(codes, d, addr, ns) ==
      w + [Select(d)] + BEBits(3, codes.idWr) + BEBits(7, addr) + Nibbles(ns) + [Release(d)]
  {}

  /** The first four bring-up commands after `w`. */
  lemma ConfigCommandsHead(w: seq<Event>, codes: Codes, master: bool)
    ensures w + CommandsWithNop(ConfigCommands(codes, master)[..4]) ==
      w + BEBits(8, codes.sysDis) + [ExtraClk] + BEBits(8, codes.coms10) + [ExtraClk]
        + BEBits(8, if master then codes.mstMd else codes.slvMd) + [ExtraClk]
        + BEBits(8, codes.sysEn) + [ExtraClk]
  {
    var cs := ConfigCommands(codes, master);
    assert w + CommandsWithNop(cs[..0]) == w;
    CommandsStep(w, cs, 0);
    CommandsStep(w, cs, 1);
    CommandsStep(w, cs, 2);
    CommandsStep(w, cs, 3);
  }

  /** The seven bring-up commands after `w`, as initDisplay clocks them out. */
  lemma ConfigCommandsShape(w: seq<Event>, codes: Codes, master: bool)
    ensures w + CommandsWithNop(ConfigCommands(codes, master)) ==
      w + BEBits(8, codes.sysDis) + [ExtraClk] + BEBits(8, codes.coms10) + [ExtraClk]
        + BEBits(8, if master then codes.mstMd else codes.slvMd) + [ExtraClk]
        + BEBits(8, codes.sysEn) + [ExtraClk] + BEBits(8, codes.ledOn) + [ExtraClk]
        + BEBits(8, codes.blOff) + [ExtraClk] + BEBits(8, codes.pwm + 15) + [ExtraClk]
  {
    var cs := ConfigCommands(codes, master);
    ConfigCommandsHead(w, codes, master);
    CommandsStep(w, cs, 4);
    CommandsStep(w, cs, 5);
    CommandsStep(w, cs, 6);
    assert cs[..7] == cs;
  }

  /** Config command k appended to the first k, as initDisplay clocks them out after `w`. */
  lemma CommandsStep(w: seq<Event>, cs: seq<Byte>, k: nat)
    requires k < |cs|
    ensures w + CommandsWithNop(cs[..k + 1]) == w + CommandsWithNop(cs[..k]) + BEBits(8, cs[k]) + [ExtraClk]
  {
    CommandsWithNopStep(cs, k);
  }

  lemma InitFrameShape(w: seq<Event>, codes: Codes, d: int, pin: uint8, master: bool)
    ensures w + InitFrame(codes, d, pin, master) ==
      w + [PinMode(pin)] + [Release(d)] + [Select(d)] + PreCommandBits
        + BEBits(8, codes.sysDis) + [ExtraClk] + BEBits(8, codes.coms10) + [ExtraClk]
        + BEBits(8, if master then codes.mstMd else codes.slvMd) + [ExtraClk]
        + BEBits(8, codes.sysEn) + [ExtraClk] + BEBits(8, codes.ledOn) + [ExtraClk]
        + BEBits(8, codes.blOff) + [ExtraClk] + BEBits(8, codes.pwm + 15) + [ExtraClk] + [Release(d)]
  {
    ConfigCommandsShape(w + [PinMode(pin)] + [Release(d)] + [Select(d)] + PreCommandBits, codes, master);
  }

  lemma CommandsWithNopStep(cs: seq<Byte>, k: nat)
    requires k < |cs|
    ensures CommandsWithNop(cs[..k + 1]) == CommandsWithNop(cs[..k]) + BEBits(8, cs[k]) + NopClock(true)
  {
    assert cs[..k + 1] == cs[..k] + [cs[k]];
    CommandsWithNopSnoc(cs[..k], cs[k]);
  }

  lemma {:induction false} CommandsWithNopSnoc(cs: seq<Byte>, c: Byte)
    ensures CommandsWithNop(cs + [c]) == CommandsWithNop(cs) + BEBits(8, c) + NopClock(true)
  {
    if cs == [] {
      assert CommandsWithNop([c]) == BEBits(8, c) + NopClock(true) + CommandsWithNop([]);
    } else {
      assert (cs + [c])[1..] == cs[1..] + [c];
      CommandsWithNopSnoc(cs[1..], c);
    }
  }
}
