/**
 * The framebuffer layout of MatrixDisplay: one 32-byte region per display,
 * one byte per column, one bit per row.  Everything here is a pure function
 * of a buffer snapshot (`seq<Byte>`); the class in matrix_display.dfy keeps
 * the buffers in arrays and is specified through these functions.
 */
module Framebuffer {
  import opened Wire

  /** `uint8_t`: coordinates, display numbers and buffer offsets. */
  type uint8 = x: int | 0 <= x < 256

  /** BACKBUFFER_SIZE: bytes (columns) per display region. */
  const BackBufferSize: nat := 32

  /** The bit position CalcBit picks for row `y`: rows 8.. fold back onto 0... */
  function RowBit(y: uint8): nat
  {
    if y > 7 then y - 8 else y
  }

  /**
   * CalcBit(y) = 1 << (y > 7 ? y - 8 : y), computed in 16-bit `int` and
   * stored in a byte: rows 16..22 give 0, and from row 23 on the shift
   * overflows `int`, so those rows are outside the model.
   */
  function CalcBit(y: uint8): (b: Byte)
    requires y < 23
    ensures y < 16 ==> b == BitMask(y % 8)
    ensures 16 <= y ==> b == 0
  {
    if RowBit(y) < 8 then BitMask(RowBit(y)) else 0
  }

  /** xyToIndex: `x & 0x1F`, the column within a display; `y` is ignored. */
  function XyToIndex(x: uint8, y: uint8): (r: uint8)
    ensures r < BackBufferSize && (x - r) % 32 == 0
  {
    x % 32
  }

  /**
   * displayXYToIndex: the controller RAM address of the nibble holding (x, y):
   * two nibbles per column, the upper one for rows 4 and up.  The uint8_t
   * doubling folds column x onto x mod 128.
   */
  function DisplayXYToIndex(x: uint8, y: uint8): (r: uint8)
    ensures r / 2 == x % 128 && r % 2 == (if y >= 4 then 1 else 0)
  {
    DoubledColumn(x, if y >= 4 then 1 else 0);
    (2 * x) % 256 + (if y >= 4 then 1 else 0)
  }

  /** Doubling in uint8_t and adding a nibble bit: halving gives back x mod 128. */
  lemma DoubledColumn(x: uint8, b: nat)
    requires b < 2
    ensures ((2 * x) % 256 + b) / 2 == x % 128 && ((2 * x) % 256 + b) % 2 == b
  {
    var m := if x < 128 then x else x - 128;
    assert x % 128 == m;
    assert (2 * x) % 256 == 2 * m;
  }

  /**
   * The buffer offset setPixel writes: xyToIndex plus the display's region
   * start, in uint8_t; that is column x mod 32 of region d mod 8.
   */
  function WriteAddress(d: uint8, x: uint8): (r: uint8)
    ensures r == BackBufferSize * (d % 8) + x % 32
  {
    RegionSplit(x % 32, d);
    (XyToIndex(x, 0) + BackBufferSize * d) % 256
  }

  /**
   * The buffer offset getPixel reads: the region offset is added a second
   * time, so this is column x mod 32 of region 2d mod 8.
   */
  function ReadAddress(d: uint8, x: uint8): (r: uint8)
    ensures r == BackBufferSize * ((2 * d) % 8) + x % 32
  {
    DoubledRegion(x % 32, d);
    (BackBufferSize * d + WriteAddress(d, x)) % 256
  }

  /** A column c of region k, in uint8_t arithmetic, is column c of region k mod 8. */
  lemma RegionSplit(c: int, k: int)
    requires 0 <= c < 32 && k >= 0
    ensures (c + 32 * k) % 256 == 32 * (k % 8) + c
  {
    var j, r := k / 8, k % 8;
    assert c + 32 * k == 256 * j + (32 * r + c);
    ModOfSplit(j, 32 * r + c);
  }

  /** Adding region d's start to column c of region d mod 8 lands in region 2d mod 8. */
  lemma DoubledRegion(c: int, d: int)
    requires 0 <= c < 32 && d >= 0
    ensures (32 * d + (32 * (d % 8) + c)) % 256 == 32 * ((2 * d) % 8) + c
  {
    assert 32 * d + (32 * (d % 8) + c) == (c + 32 * (2 * d)) - 256 * (d / 8);
    ModMultiple(c + 32 * (2 * d), d / 8);
    RegionSplit(c, 2 * d);
  }

  /** `b |= m` when `on`, `b &= ~m` otherwise. */
  function SetBitTo(b: Byte, m: Byte, on: bool): Byte
  {
    if on then b | m else b & !m
  }

  /** The buffer after setPixel(d, x, y, value) with `on == (value != 0)`. */
  function SetPixelIn(buf: seq<Byte>, d: uint8, x: uint8, y: uint8, on: bool): (r: seq<Byte>)
    requires WriteAddress(d, x) < |buf| && y < 23
    ensures |r| == |buf|
  {
    buf[WriteAddress(d, x) := SetBitTo(buf[WriteAddress(d, x)], CalcBit(y), on)]
  }

  /** Whether bit CalcBit(y) of byte `a` is set. */
  predicate ReadBit(buf: seq<Byte>, a: int, y: uint8)
    requires 0 <= a < |buf| && y < 23
  {
    buf[a] & CalcBit(y) != 0
  }

  /**
   * The pixel (d, x, y) as the layout defines it: the byte setPixel writes.
   * It is bit y mod 8 of column x mod 32 in region d mod 8; rows 16..22
   * have no bit and always read dark.
   */
  predicate PixelIn(buf: seq<Byte>, d: uint8, x: uint8, y: uint8)
    requires WriteAddress(d, x) < |buf| && y < 23
    ensures PixelIn(buf, d, x, y) ==> y < 16
    ensures y < 16 ==> (PixelIn(buf, d, x, y) <==> BitAt(buf[BackBufferSize * (d % 8) + x % 32], y % 8))
  {
    ReadBit(buf, WriteAddress(d, x), y)
  }

  /**
   * What getPixel(d, x, y) returns, as written: 0 or 1, the bit of column
   * x mod 32 in region 2d mod 8 -- the region of display d only for d = 0.
   */
  function GetPixelAsWritten(buf: seq<Byte>, d: uint8, x: uint8, y: uint8): (r: uint8)
    requires ReadAddress(d, x) < |buf| && y < 23
    ensures r == 0 || r == 1
    ensures BackBufferSize * ((2 * d) % 8) + x % 32 < |buf|
    ensures r == 1 <==> ReadBit(buf, BackBufferSize * ((2 * d) % 8) + x % 32, y)
    ensures d == 0 ==> WriteAddress(d, x) < |buf| && (r == 1 <==> PixelIn(buf, 0, x, y))
  {
    ReadAddressFacts(buf, d, x, y);
    if buf[ReadAddress(d, x)] & CalcBit(y) != 0 then 1 else 0
  }

  /**
   * The read address in closed form; on display 0 the doubled offset is
   * still zero, so getPixel reads where setPixel writes.
   */
  lemma ReadAddressFacts(buf: seq<Byte>, d: uint8, x: uint8, y: uint8)
    requires ReadAddress(d, x) < |buf| && y < 23
    ensures ReadAddress(d, x) == BackBufferSize * ((2 * d) % 8) + x % 32
    ensures d == 0 ==> WriteAddress(d, x) == ReadAddress(d, x)
    ensures d == 0 ==> (ReadBit(buf, ReadAddress(d, x), y) <==> PixelIn(buf, 0, x, y))
  {}

  /** memset(buf + lo, 0, n). */
  function ZeroRegion(buf: seq<Byte>, lo: int, n: nat): (r: seq<Byte>)
    ensures |r| == |buf|
  {
    seq(|buf|, i requires 0 <= i < |buf| => if lo <= i < lo + n then 0 else buf[i])
  }

  /**
   * The nibble the paint path sends: the byte's upper half for rows 4 and
   * up.  For a row of the display, bit y mod 4 of it is the pixel's bit.
   */
  function PaintNibble(b: Byte, y: uint8): (r: Byte)
    ensures y >= 4 ==> r < 16
    ensures y < 8 ==> (BitAt(r, y % 4) <==> b & CalcBit(y) != 0)
  {
    if y >= 4 then HighNibble(b, y % 4); b >> 4 else b
  }

  /** The upper nibble is below 16, and its bit k is bit k + 4 of the byte. */
  lemma HighNibble(b: Byte, k: nat)
    requires k < 4
    ensures b >> 4 < 16
    ensures BitAt(b >> 4, k) <==> BitAt(b, k + 4)
  {
    match k
    case 0 => assert (b >> 4) & 1 != 0 <==> b & 16 != 0;
    case 1 => assert (b >> 4) & 2 != 0 <==> b & 32 != 0;
    case 2 => assert (b >> 4) & 4 != 0 <==> b & 64 != 0;
    case _ => assert (b >> 4) & 8 != 0 <==> b & 128 != 0;
  }

  // ---------------------------------------------------------------------------
  // Lemmas

  /** Distinct bit positions have distinct single-bit masks. */
  lemma BitMaskInjective(k: nat, j: nat)
    requires k < 8 && j < 8 && j != k
    ensures BitMask(j) != BitMask(k)
  {}

  lemma SetBitToEffect(b: Byte, k: nat, on: bool, j: nat)
    requires k < 8 && j < 8
    ensures BitAt(SetBitTo(b, BitMask(k), on), j) == if j == k then on else BitAt(b, j)
  {
    var m, mj := BitMask(k), BitMask(j);
    assert m & (m - 1) == 0 && m != 0;
    assert mj & (mj - 1) == 0 && mj != 0;
    if j != k {
      BitMaskInjective(k, j);
      SingleBitMasks(b, m, mj, on);
    }
  }

  lemma SingleBitMasks(b: Byte, m: Byte, mj: Byte, on: bool)
    requires m & (m - 1) == 0 && m != 0 && mj & (mj - 1) == 0 && mj != 0 && m != mj
    ensures (SetBitTo(b, m, on) & mj != 0) == (b & mj != 0)
  {}

  /** For a display that exists, setPixel writes inside its own 32-byte region. */
  lemma WriteAddressInRegion(d: uint8, x: uint8, count: nat)
    requires d < count <= 4
    ensures WriteAddress(d, x) == BackBufferSize * d + x % 32
    ensures BackBufferSize * d <= WriteAddress(d, x) < BackBufferSize * (d + 1)
    ensures WriteAddress(d, x) < BackBufferSize * count
  {}

  lemma ModMultiple(a: int, k: int)
    ensures (a - 256 * k) % 256 == a % 256
  {
    var q, r := a / 256, a % 256;
    assert a - 256 * k == 256 * (q - k) + r;
  }

  /** Reducing one summand modulo 256 first does not change the sum modulo 256. */
  lemma AddMod(p: int, q: int)
    ensures (p + q % 256) % 256 == (p + q) % 256
  {
    ModMultiple(p + q, q / 256);
    assert p + q % 256 == p + q - 256 * (q / 256);
  }

  lemma ModOfSplit(j: int, r: int)
    requires 0 <= r < 256
    ensures (256 * j + r) % 256 == r
  {
    ModMultiple(r, -j);
  }

  /** getPixel reads byte (64d + (x & 31)) mod 256, the column of display 2d mod 8. */
  lemma ReadAddressDoubled(d: uint8, x: uint8)
    ensures ReadAddress(d, x) == (64 * d + x % 32) % 256
    ensures ReadAddress(d, x) == BackBufferSize * ((2 * d) % 8) + x % 32
    ensures d == 0 ==> ReadAddress(d, x) == WriteAddress(d, x)
  {
    var c := x % 32;
    assert WriteAddress(d, x) == (c + 32 * d) % 256;
    AddMod(32 * d, c + 32 * d);
    assert ReadAddress(d, x) == (64 * d + c) % 256;
    var j, r := (2 * d) / 8, (2 * d) % 8;
    assert 64 * d + c == 256 * j + (32 * r + c);
    ModOfSplit(j, 32 * r + c);
  }

  /**
   * setPixel with y < 16 changes exactly one bit of the buffer: bit RowBit(y)
   * of the byte at WriteAddress(d, x) becomes `on`; every other bit of every
   * byte keeps its value.
   */
  lemma SetPixelChangesOneBit(buf: seq<Byte>, d: uint8, x: uint8, y: uint8, on: bool, i: nat, j: nat)
    requires WriteAddress(d, x) < |buf| && y < 16
    requires i < |buf| && j < 8
    ensures BitAt(SetPixelIn(buf, d, x, y, on)[i], j) ==
      if i == WriteAddress(d, x) && j == RowBit(y) then on else BitAt(buf[i], j)
  {
    if i == WriteAddress(d, x) {
      SetBitToEffect(buf[i], RowBit(y), on, j);
    }
  }

  /** Rows 16..22 give CalcBit 0, so setPixel leaves the buffer as it was. */
  lemma SetPixelHighRowsNoOp(buf: seq<Byte>, d: uint8, x: uint8, y: uint8, on: bool)
    requires WriteAddress(d, x) < |buf| && 16 <= y < 23
    ensures SetPixelIn(buf, d, x, y, on) == buf
  {
    var a := WriteAddress(d, x);
    assert SetBitTo(buf[a], 0, on) == buf[a];
  }

  /** Reading a pixel back through the layout gives what setPixel stored, on every display. */
  lemma SetThenReadPixel(buf: seq<Byte>, d: uint8, x: uint8, y: uint8, on: bool)
    requires WriteAddress(d, x) < |buf| && y < 16
    ensures PixelIn(SetPixelIn(buf, d, x, y, on), d, x, y) == on
  {
    SetBitToEffect(buf[WriteAddress(d, x)], y % 8, on, y % 8);
  }

  /** Pixels at other (byte, bit) locations are not disturbed by setPixel. */
  lemma SetPixelKeepsOthers(buf: seq<Byte>, d: uint8, x: uint8, y: uint8, on: bool,
                            d2: uint8, x2: uint8, y2: uint8)
    requires WriteAddress(d, x) < |buf| && y < 16
    requires WriteAddress(d2, x2) < |buf| && y2 < 16
    requires WriteAddress(d2, x2) != WriteAddress(d, x) || y2 % 8 != y % 8
    ensures PixelIn(SetPixelIn(buf, d, x, y, on), d2, x2, y2) == PixelIn(buf, d2, x2, y2)
  {
    if WriteAddress(d2, x2) == WriteAddress(d, x) {
      SetBitToEffect(buf[WriteAddress(d, x)], y % 8, on, y2 % 8);
    }
  }

  /** Display 0 is read where it is written: the set/get round trip holds there. */
  lemma Display0RoundTrip(buf: seq<Byte>, x: uint8, y: uint8, on: bool)
    requires WriteAddress(0, x) < |buf| && y < 16
    ensures ReadAddress(0, x) < |buf|
    ensures GetPixelAsWritten(SetPixelIn(buf, 0, x, y, on), 0, x, y) == if on then 1 else 0
  {
    SetThenReadPixel(buf, 0, x, y, on);
  }

  /**
   * Counterexample to the round trip on display 1 of four: setPixel(1, 0, 0, 1)
   * sets bit 0 of byte 32, while getPixel(1, 0, 0) reads byte 64 and returns 0.
   */
  lemma GetPixelMisreadsDisplay1()
    ensures
      var blank := seq(128, i => 0 as Byte);
      var lit := SetPixelIn(blank, 1, 0, 0, true);
      WriteAddress(1, 0) == 32 && ReadAddress(1, 0) == 64 &&
      PixelIn(lit, 1, 0, 0) && GetPixelAsWritten(lit, 1, 0, 0) == 0
  {
    var blank := seq(128, i => 0 as Byte);
    var lit := SetPixelIn(blank, 1, 0, 0, true);
    assert lit[64] == 0;
    SetThenReadPixel(blank, 1, 0, 0, true);
  }

  /** x & 0x1F: columns x and x + 32 share one byte. */
  lemma ColumnsAlias(d: uint8, x: uint8)
    requires x + 32 < 256
    ensures WriteAddress(d, x + 32) == WriteAddress(d, x)
    ensures ReadAddress(d, x + 32) == ReadAddress(d, x)
  {}

  /** After memset of display d's region, every pixel of display d reads 0; other displays keep theirs. */
  lemma ClearedRegionReadsZero(buf: seq<Byte>, d: uint8, count: nat, d2: uint8, x: uint8, y: uint8)
    requires |buf| == BackBufferSize * count && d < count <= 4 && d2 < count && y < 23
    ensures WriteAddress(d2, x) < |buf|
    ensures d2 == d ==> !PixelIn(ZeroRegion(buf, BackBufferSize * d, BackBufferSize), d2, x, y)
    ensures d2 != d ==>
      PixelIn(ZeroRegion(buf, BackBufferSize * d, BackBufferSize), d2, x, y) == PixelIn(buf, d2, x, y)
  {
    WriteAddressInRegion(d2, x, count);
  }

  /** The receiver, reading the painted nibble LSB first, gets the pixel's bit at position y mod 4. */
  lemma PaintNibbleCarriesPixel(b: Byte, y: uint8)
    requires y < 8
    ensures LEBits(4, PaintNibble(b, y))[y % 4] == Bit(b & CalcBit(y) != 0)
  {}
}
