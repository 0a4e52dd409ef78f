/**
 * DisplayToolbox: drawing on a chain of displays through one virtual x
 * coordinate.  A toolbox setPixel splits x into a display number and a local
 * column (calcDispNum) and forwards to MatrixDisplay.setPixel.  Every drawing
 * routine is a sequence of such calls; the model lists them as `Plot`s, and
 * `ApplyPlots` is the live buffer after them.  The drawing methods are
 * specified by the plot list they issue.
 */
module Toolbox {
  import opened Wrappers
  import opened Wire
  import opened Framebuffer
  import opened Ht1632
  import opened MatrixDriver

  /** `int` on the AVR: 16 bits. */
  type int16 = x: int | -32768 <= x < 32768

  /** `int8_t`, and also the plain `char` of avr-gcc, which is signed. */
  type int8 = x: int | -128 <= x < 128

  /** Storing an `int` into an `int8_t`: two's complement wrap-around. */
  function Int8(v: int): (r: int8)
    ensures (v - r) % 256 == 0
    ensures -128 <= v < 128 ==> r == v
  {
    var r := (v + 128) % 256 - 128;
    assert v - r == 256 * ((v + 128) / 256);
    r
  }

  // ---------------------------------------------------------------------------
  // Splitting a virtual column

  /**
   * calcDispNum(int& x): the display holding virtual column x, and x made
   * local to that display.  The by-reference x is the second component.  The
   * display number is returned as uint8_t.
   */
  function CalcDispNum(x: int16): (r: (uint8, int16))
    ensures x >= BackBufferSize ==>
      0 <= r.1 < BackBufferSize && x == BackBufferSize * (x / BackBufferSize) + r.1 &&
      r.0 == (x / BackBufferSize) % 256
    ensures x < BackBufferSize ==> r == (0, x)
  {
    if x >= BackBufferSize then
      var dispNum := x / BackBufferSize;
      (dispNum % 256, x - BackBufferSize * dispNum)
    else
      (0, x)
  }

  /** The display number the driver is given for virtual column x. */
  function XDisplay(x: int16): uint8
  {
    CalcDispNum(x).0
  }

  /** The column the driver is given when the adjusted x is passed: uint8_t of it. */
  function XColumn(x: int16): uint8
  {
    CalcDispNum(x).1 % 256
  }

  /** Worked examples of calcDispNum. */
  lemma CalcDispNumExamples()
    ensures CalcDispNum(35) == (1, 3)
    ensures CalcDispNum(127) == (3, 31)
    ensures CalcDispNum(31) == (0, 31)
    ensures CalcDispNum(-5) == (0, -5)
  {}

  /**
   * For x >= 32 the local column is x mod 32 and the display is x / 32 (as
   * uint8_t); below 32, negative x included, x is left alone on display 0.
   */
  lemma CalcDispNumSplits(x: int16)
    ensures x >= BackBufferSize ==> CalcDispNum(x) == ((x / BackBufferSize) % 256, x % BackBufferSize)
    ensures x < BackBufferSize ==> CalcDispNum(x) == (0, x)
  {}

  /**
   * setPixel(calcDispNum(x), x, ...) evaluates its arguments in an unspecified
   * order, so the driver sees either the adjusted x or the original one.  Both
   * select the same column byte, because (x mod 256) & 31 == x mod 32.
   */
  lemma EitherOrderSameColumn(x: int16)
    ensures XColumn(x) % 32 == (x % 256) % 32 == x % 32
    ensures WriteAddress(XDisplay(x), XColumn(x)) == WriteAddress(XDisplay(x), x % 256)
    ensures ReadAddress(XDisplay(x), XColumn(x)) == ReadAddress(XDisplay(x), x % 256)
  {
    Mod256Mod32(x);
    ColumnMod32(x);
  }

  /** A column of display 0 is passed on unchanged. */
  lemma LowColumnIsLocal(x: int16)
    ensures 0 <= x < BackBufferSize ==> XDisplay(x) == 0 && XColumn(x) == x
  {
    if 0 <= x < BackBufferSize {
      assert CalcDispNum(x) == (0, x);
      assert x % 256 == x;
    }
  }

  /** For a column of display 0, getPixel reads the very byte setPixel writes. */
  lemma LowColumnAddress(x: int16)
    requires 0 <= x < BackBufferSize
    ensures XDisplay(x) == 0 && XColumn(x) == x
    ensures ReadAddress(XDisplay(x), XColumn(x)) == WriteAddress(0, x as uint8)
  {
    LowColumnIsLocal(x);
  }

  lemma Mod256Mod32(x: int)
    ensures (x % 256) % 32 == x % 32
  {
    var a := x % 256;
    assert x == 32 * (8 * (x / 256) + a / 32) + a % 32;
  }

  lemma ColumnMod32(x: int16)
    ensures XColumn(x) % 32 == x % 32
  {
    var c := CalcDispNum(x).1;
    if x >= BackBufferSize {
      assert c == x % 32;
    }
    Mod256Mod32(c);
  }

  /**
   * The byte toolbox getPixel reads for x >= 0: the region offset is doubled,
   * so virtual column x is read at byte 64 * (x / 32) + x mod 32, in uint8_t.
   */
  lemma GetPixelReadAddress(x: int16)
    requires x >= 0
    ensures ReadAddress(XDisplay(x), XColumn(x)) == (64 * (x / BackBufferSize) + x % 32) % 256
  {
    ColumnMod32(x);
    var d := XDisplay(x);
    ReadAddressDoubled(d, XColumn(x));
    if x >= BackBufferSize {
      var q := x / 32;
      assert q == 256 * (q / 256) + d;
      assert 64 * d + x % 32 == (64 * q + x % 32) - 256 * (64 * (q / 256));
      ModMultiple(64 * q + x % 32, 64 * (q / 256));
    }
  }

  // ---------------------------------------------------------------------------
  // Plots: toolbox setPixel calls

  /** One toolbox setPixel(x, y, val) with paint = false, as every drawing routine issues it. */
  datatype Plot = Plot(x: int16, y: int16, val: int16)

  /** The row the driver is given: uint8_t of y. */
  function PlotRow(p: Plot): uint8
  {
    p.y % 256
  }

  /** The driver's `value` is uint8_t of val; the pixel goes on when that is non-zero. */
  predicate PlotOn(p: Plot)
  {
    p.val % 256 != 0
  }

  /**
   * The live-buffer byte the plot writes.  For x >= 0 that is byte
   * 32 * (x / 32) + x mod 32 in uint8_t arithmetic: byte x mod 256.
   */
  function PlotAddress(p: Plot): (r: uint8)
    ensures p.x >= 0 ==> r == p.x % 256
  {
    ColumnAddress(p.x);
    WriteAddress(XDisplay(p.x), XColumn(p.x))
  }

  /**
   * The plot writes inside a buffer of `size` bytes, at a row CalcBit is
   * defined for; for x >= 0, when x mod 256 and y mod 256 are in range.
   */
  predicate Fits(size: nat, p: Plot)
    ensures p.x >= 0 ==> (Fits(size, p) <==> p.x % 256 < size && p.y % 256 < 23)
  {
    PlotAddress(p) < size && PlotRow(p) < 23
  }

  predicate AllFit(size: nat, ps: seq<Plot>)
  {
    forall p <- ps :: Fits(size, p)
  }

  /** The buffer after one plot. */
  function ApplyPlot(buf: seq<Byte>, p: Plot): (r: seq<Byte>)
    requires Fits(|buf|, p)
    ensures |r| == |buf|
  {
    SetPixelIn(buf, XDisplay(p.x), XColumn(p.x), PlotRow(p), PlotOn(p))
  }

  /** The buffer after the plots, first to last. */
  function ApplyPlots(buf: seq<Byte>, ps: seq<Plot>): (r: seq<Byte>)
    requires AllFit(|buf|, ps)
    ensures |r| == |buf|
    decreases |ps|
  {
    if ps == [] then buf else ApplyPlots(ApplyPlot(buf, ps[0]), ps[1..])
  }

  lemma ColumnAddress(x: int16)
    ensures x >= 0 ==> WriteAddress(XDisplay(x), XColumn(x)) == x % 256
  {
    EitherOrderSameColumn(x);
    var d := XDisplay(x);
    if x >= BackBufferSize {
      var q := x / 32;
      assert d == q % 256;
      assert x == 32 * q + x % 32;
      assert 32 * d + x % 32 == x - 8192 * (q / 256) by {
        assert q == 256 * (q / 256) + q % 256;
      }
      ModMultiple(x, 32 * (q / 256));
    }
  }

  /** Whether the plot writes bit j of byte i (rows 16..22 write nothing). */
  predicate Hits(p: Plot, i: int, j: nat)
  {
    PlotRow(p) < 16 && PlotAddress(p) == i && RowBit(PlotRow(p)) == j
  }

  /** Bit j of byte i after the plots, starting from `b`: the value of the last plot hitting it. */
  function FinalBit(b: bool, ps: seq<Plot>, i: int, j: nat): bool
    decreases |ps|
  {
    if ps == [] then b else FinalBit(if Hits(ps[0], i, j) then PlotOn(ps[0]) else b, ps[1..], i, j)
  }

  lemma ApplyPlotBit(buf: seq<Byte>, p: Plot, i: nat, j: nat)
    requires Fits(|buf|, p) && i < |buf| && j < 8
    ensures BitAt(ApplyPlot(buf, p)[i], j) == if Hits(p, i, j) then PlotOn(p) else BitAt(buf[i], j)
  {
    var d, x, y := XDisplay(p.x), XColumn(p.x), PlotRow(p);
    if y < 16 {
      SetPixelChangesOneBit(buf, d, x, y, PlotOn(p), i, j);
    } else {
      SetPixelHighRowsNoOp(buf, d, x, y, PlotOn(p));
    }
  }

  /** Every bit of the buffer after the plots is the last value written to it, or its old value. */
  lemma {:induction false} ApplyPlotsBit(buf: seq<Byte>, ps: seq<Plot>, i: nat, j: nat)
    requires AllFit(|buf|, ps) && i < |buf| && j < 8
    ensures BitAt(ApplyPlots(buf, ps)[i], j) == FinalBit(BitAt(buf[i], j), ps, i, j)
    decreases |ps|
  {
    if ps != [] {
      var next := ApplyPlot(buf, ps[0]);
      ApplyPlotBit(buf, ps[0], i, j);
      assert AllFit(|next|, ps[1..]) by {
        forall p <- ps[1..] ensures Fits(|next|, p) {
          assert p in ps;
        }
      }
      ApplyPlotsBit(next, ps[1..], i, j);
    }
  }

  /** A bit no plot hits keeps its value. */
  lemma {:induction false} FinalBitUntouched(b: bool, ps: seq<Plot>, i: int, j: nat)
    requires forall p <- ps :: !Hits(p, i, j)
    ensures FinalBit(b, ps, i, j) == b
    decreases |ps|
  {
    if ps != [] {
      assert ps[0] in ps;
      assert forall p <- ps[1..] :: p in ps;
      FinalBitUntouched(b, ps[1..], i, j);
    }
  }

  /** When every plot has the same value, a bit some plot hits ends with that value. */
  lemma {:induction false} FinalBitUniform(b: bool, ps: seq<Plot>, i: int, j: nat, on: bool, k: nat)
    requires forall p <- ps :: PlotOn(p) == on
    requires k < |ps| && Hits(ps[k], i, j)
    ensures FinalBit(b, ps, i, j) == on
    decreases |ps|
  {
    assert ps[0] in ps;
    assert forall p <- ps[1..] :: p in ps;
    if k == 0 {
      if |ps| > 1 {
        FinalBitSticks(on, ps[1..], i, j, on);
      }
    } else {
      FinalBitUniform(if Hits(ps[0], i, j) then on else b, ps[1..], i, j, on, k - 1);
    }
  }

  lemma {:induction false} FinalBitSticks(b: bool, ps: seq<Plot>, i: int, j: nat, on: bool)
    requires forall p <- ps :: PlotOn(p) == on
    requires b == on
    ensures FinalBit(b, ps, i, j) == on
    decreases |ps|
  {
    if ps != [] {
      assert ps[0] in ps;
      assert forall p <- ps[1..] :: p in ps;
      FinalBitSticks(on, ps[1..], i, j, on);
    }
  }

  /**
   * Drawing in one colour: every plotted pixel (rows below 16) reads as that
   * colour afterwards, and every bit no plot hits is unchanged.
   */
  lemma PlotsInOneColour(buf: seq<Byte>, ps: seq<Plot>, on: bool, k: nat)
    requires AllFit(|buf|, ps) && forall p <- ps :: PlotOn(p) == on
    requires k < |ps| && PlotRow(ps[k]) < 16
    ensures Fits(|buf|, ps[k])
    ensures PixelIn(ApplyPlots(buf, ps), XDisplay(ps[k].x), XColumn(ps[k].x), PlotRow(ps[k])) == on
  {
    var q := ps[k];
    assert q in ps;
    var i, j := PlotAddress(q), RowBit(PlotRow(q));
    ApplyPlotsBit(buf, ps, i, j);
    FinalBitUniform(BitAt(buf[i], j), ps, i, j, on, k);
  }

  /** Bits that no plot hits are left as they were. */
  lemma PlotsKeepOthers(buf: seq<Byte>, ps: seq<Plot>, i: nat, j: nat)
    requires AllFit(|buf|, ps) && i < |buf| && j < 8
    requires forall p <- ps :: !Hits(p, i, j)
    ensures BitAt(ApplyPlots(buf, ps)[i], j) == BitAt(buf[i], j)
  {
    ApplyPlotsBit(buf, ps, i, j);
    FinalBitUntouched(BitAt(buf[i], j), ps, i, j);
  }

  /** Plots applied in two runs are the plots of the concatenation. */
  lemma {:induction false} ApplyPlotsAppend(buf: seq<Byte>, a: seq<Plot>, b: seq<Plot>)
    requires AllFit(|buf|, a) && AllFit(|buf|, b)
    ensures AllFit(|buf|, a + b)
    ensures ApplyPlots(buf, a + b) == ApplyPlots(ApplyPlots(buf, a), b)
    decreases |a|
  {
    if a != [] {
      assert (a + b)[0] == a[0] && (a + b)[1..] == a[1..] + b;
      assert forall p <- a[1..] :: p in a;
      ApplyPlotsAppend(ApplyPlot(buf, a[0]), a[1..], b);
    } else {
      assert a + b == b;
    }
  }

  /** Applying a non-empty plot list applies its head first. */
  lemma ApplyPlotsCons(buf: seq<Byte>, ps: seq<Plot>)
    requires AllFit(|buf|, ps) && ps != []
    ensures Fits(|buf|, ps[0]) && AllFit(|buf|, ps[1..])
    ensures ApplyPlots(buf, ps) == ApplyPlots(ApplyPlot(buf, ps[0]), ps[1..])
  {
    assert ps[0] in ps;
    assert forall p <- ps[1..] :: p in ps;
  }

  /** Applying one more plot of a list: the prefix up to k + 1 is the prefix up to k, then plot k. */
  lemma ApplyPlotsSnoc(buf: seq<Byte>, ps: seq<Plot>, k: nat)
    requires AllFit(|buf|, ps) && k < |ps|
    ensures AllFit(|buf|, ps[..k]) && Fits(|buf|, ps[k])
    ensures ApplyPlots(buf, ps[..k + 1]) == ApplyPlot(ApplyPlots(buf, ps[..k]), ps[k])
  {
    assert ps[k] in ps;
    assert forall p <- ps[..k] :: p in ps;
    assert ps[..k + 1] == ps[..k] + [ps[k]];
    ApplyPlotsAppend(buf, ps[..k], [ps[k]]);
    var mid := ApplyPlots(buf, ps[..k]);
    assert ApplyPlots(mid, [ps[k]]) == ApplyPlots(ApplyPlot(mid, ps[k]), []);
  }

  /** A bit that exactly one plot hits ends with that plot's value. */
  lemma {:induction false} FinalBitOnly(b: bool, ps: seq<Plot>, i: int, j: nat, k: nat)
    requires k < |ps| && Hits(ps[k], i, j)
    requires forall m :: 0 <= m < |ps| && m != k ==> !Hits(ps[m], i, j)
    ensures FinalBit(b, ps, i, j) == PlotOn(ps[k])
    decreases |ps|
  {
    if k == 0 {
      forall p <- ps[1..] ensures !Hits(p, i, j) {
        var m :| 0 <= m < |ps[1..]| && ps[1..][m] == p;
        assert ps[m + 1] == p;
      }
      FinalBitUntouched(PlotOn(ps[0]), ps[1..], i, j);
    } else {
      assert !Hits(ps[0], i, j);
      forall m | 0 <= m < |ps[1..]| && m != k - 1 ensures !Hits(ps[1..][m], i, j) {
        assert ps[1..][m] == ps[m + 1];
      }
      FinalBitOnly(b, ps[1..], i, j, k - 1);
    }
  }

  lemma AllFitSplit(size: nat, a: seq<Plot>, b: seq<Plot>)
    requires AllFit(size, a + b)
    ensures AllFit(size, a) && AllFit(size, b)
  {
    assert forall p <- a :: p in a + b;
    assert forall p <- b :: p in a + b;
  }

  // ---------------------------------------------------------------------------
  // Brightness on every display

  /** One brightness frame per display, displays 0 .. n-1 in order. */
  function BrightnessAll(codes: Codes, p: Byte, n: nat): (r: seq<Event>)
    ensures |r| == 14 * n
  {
    if n == 0 then [] else BrightnessAll(codes, p, n - 1) + BrightnessFrame(codes, n - 1, p)
  }

  /** Frame k of the broadcast is display k's brightness frame. */
  lemma {:induction false} BrightnessAllFrame(codes: Codes, p: Byte, n: nat, k: nat)
    requires k < n
    ensures BrightnessAll(codes, p, n)[14 * k .. 14 * (k + 1)] == BrightnessFrame(codes, k, p)
  {
    var prev, last := BrightnessAll(codes, p, n - 1), BrightnessFrame(codes, n - 1, p);
    assert BrightnessAll(codes, p, n) == prev + last;
    if k < n - 1 {
      SliceLeft(prev, last, 14 * k, 14 * (k + 1));
      BrightnessAllFrame(codes, p, n - 1, k);
    } else {
      SliceRight(prev, last, 14 * k, 14 * (k + 1));
    }
  }

  /** The broadcast leaves every chip deselected and never clocks with none selected. */
  lemma {:induction false} BrightnessAllWellFramed(codes: Codes, p: Byte, n: nat)
    ensures WellFramed(BrightnessAll(codes, p, n))
  {
    if n == 0 {
      assert Track({}, []) == Some({});
    } else {
      BrightnessAllWellFramed(codes, p, n - 1);
      BrightnessFrameDecodes(codes, n - 1, p);
      WellFramedAppend(BrightnessAll(codes, p, n - 1), BrightnessFrame(codes, n - 1, p));
    }
  }

  lemma BrightnessAllStep(w: seq<Event>, codes: Codes, p: Byte, n: nat)
    ensures w + BrightnessAll(codes, p, n + 1) == w + BrightnessAll(codes, p, n) + BrightnessFrame(codes, n, p)
  {}

  // ---------------------------------------------------------------------------
  // drawLine: Bresenham

  function Abs(v: int): nat
  {
    if v < 0 then -v else v
  }

  /**
   * The char variables of drawLine stay exact: the end points fit a signed
   * char and each delta is at most 63, so `num + numadd` stays below 127.
   */
  predicate LineInRange(x1: uint8, y1: uint8, x2: uint8, y2: uint8)
  {
    x1 < 128 && y1 < 128 && x2 < 128 && y2 < 128 && Abs(x2 - x1) <= 63 && Abs(y2 - y1) <= 63
  }

  /** The loop constants drawLine computes, and the initial numerator. */
  datatype LineSetup = LineSetup(xinc1: int, xinc2: int, yinc1: int, yinc2: int,
                                 den: int, num: int, numadd: int, numpixels: int)

  /**
   * drawLine's set-up: the increments point towards the end point; the
   * longer delta is the denominator and the number of steps, the shorter one
   * the numerator's increment, and the numerator starts at half the
   * denominator.  The major axis moves every step (xinc2 or yinc2), the minor
   * axis when the numerator overflows (xinc1 or yinc1).
   */
  function Setup(x1: uint8, y1: uint8, x2: uint8, y2: uint8): (r: LineSetup)
    ensures r.numpixels == r.den == (if Abs(x2 - x1) >= Abs(y2 - y1) then Abs(x2 - x1) else Abs(y2 - y1))
    ensures r.numadd == (if Abs(x2 - x1) >= Abs(y2 - y1) then Abs(y2 - y1) else Abs(x2 - x1))
    ensures r.xinc1 + r.xinc2 == (if x2 >= x1 then 1 else -1) && r.yinc1 + r.yinc2 == (if y2 >= y1 then 1 else -1)
    ensures (r.den > 0 ==> 0 <= r.num < r.den) && (r.den == 0 ==> r.num == 0)
    ensures LineInRange(x1, y1, x2, y2) ==> SetupShape(r)
  {
    var deltax, deltay := Abs(x2 - x1), Abs(y2 - y1);
    var xinc := if x2 >= x1 then 1 else -1;
    var yinc := if y2 >= y1 then 1 else -1;
    if deltax >= deltay then LineSetup(0, xinc, yinc, 0, deltax, deltax / 2, deltay, deltax)
    else LineSetup(xinc, 0, 0, yinc, deltay, deltay / 2, deltax, deltay)
  }

  /** Each step moves each coordinate by at most one; the loop runs at most 127 times. */
  predicate SetupShape(s: LineSetup)
  {
    Abs(s.xinc1) + Abs(s.xinc2) <= 1 && Abs(s.yinc1) + Abs(s.yinc2) <= 1 &&
    -1 <= s.numpixels <= 126 && 0 <= s.numadd <= s.den
  }

  /** The plots of drawLine's loop from pixel `cur` on, at (x, y) with numerator `num`. */
  function LineFrom(s: LineSetup, x: int, y: int, num: int, cur: int, val: uint8): (r: seq<Plot>)
    requires SetupShape(s) && 0 <= cur <= s.numpixels + 1
    requires Abs(x) <= 256 + cur && Abs(y) <= 256 + cur
    ensures |r| == s.numpixels + 1 - cur
    decreases s.numpixels + 1 - cur
  {
    if cur > s.numpixels then []
    else
      var num1 := num + s.numadd;
      if num1 >= s.den then
        [Plot(x, y, val)] + LineFrom(s, x + s.xinc1 + s.xinc2, y + s.yinc1 + s.yinc2, num1 - s.den, cur + 1, val)
      else
        [Plot(x, y, val)] + LineFrom(s, x + s.xinc2, y + s.yinc2, num1, cur + 1, val)
  }

  /** The toolbox setPixel calls of drawLine(x1, y1, x2, y2, val). */
  function LinePlots(x1: uint8, y1: uint8, x2: uint8, y2: uint8, val: uint8): (r: seq<Plot>)
    requires LineInRange(x1, y1, x2, y2)
    ensures |r| == (if Abs(x2 - x1) >= Abs(y2 - y1) then Abs(x2 - x1) else Abs(y2 - y1)) + 1
    ensures forall p <- r :: p.val == val
  {
    LineFromColour(Setup(x1, y1, x2, y2), x1, y1, Setup(x1, y1, x2, y2).num, 0, val);
    LineFrom(Setup(x1, y1, x2, y2), x1, y1, Setup(x1, y1, x2, y2).num, 0, val)
  }

  /** Every call of the loop is made with the colour drawLine was given. */
  lemma {:induction false} LineFromColour(s: LineSetup, x: int, y: int, num: int, cur: int, val: uint8)
    requires SetupShape(s) && 0 <= cur <= s.numpixels + 1
    requires Abs(x) <= 256 + cur && Abs(y) <= 256 + cur
    ensures forall p <- LineFrom(s, x, y, num, cur, val) :: p.val == val
    decreases s.numpixels + 1 - cur
  {
    if cur <= s.numpixels {
      var num1 := num + s.numadd;
      if num1 >= s.den {
        LineFromColour(s, x + s.xinc1 + s.xinc2, y + s.yinc1 + s.yinc2, num1 - s.den, cur + 1, val);
      } else {
        LineFromColour(s, x + s.xinc2, y + s.yinc2, num1, cur + 1, val);
      }
    }
  }

  lemma DivSubOne(a: int, d: int)
    requires d > 0
    ensures (a - d) / d == a / d - 1
  {
    var q, r := a / d, a % d;
    assert a - d == (q - 1) * d + r;
    DivUnique(a - d, d, q - 1, r);
  }

  lemma DivUnique(a: int, d: int, q: int, r: int)
    requires d > 0 && 0 <= r < d && a == q * d + r
    ensures a / d == q
  {
    var q', r' := a / d, a % d;
    if q' > q {
      MulAtLeast(q' - q, d);
    } else if q' < q {
      MulAtLeast(q - q', d);
    }
  }

  lemma {:induction false} MulAtLeast(k: int, d: int)
    requires k >= 1 && d > 0
    ensures k * d >= d
    decreases k
  {
    if k > 1 {
      MulAtLeast(k - 1, d);
      assert k * d == (k - 1) * d + d;
    }
  }

  /** Position after j major steps of b and c minor steps of a. */
  function Along(x: int, j: int, b: int, c: int, a: int): int
  {
    x + j * b + c * a
  }

  /** Taking one step first, with or without a minor step, leaves j - 1 steps to go. */
  lemma StepSum(x: int, a: int, b: int, j: int, c: int)
    ensures Along(x + a + b, j - 1, b, c - 1, a) == Along(x, j, b, c, a)
    ensures Along(x + b, j - 1, b, c, a) == Along(x, j, b, c, a)
  {
    assert (j - 1) * b == j * b - b;
    assert (c - 1) * a == c * a - a;
  }

  /** How often the numerator has overflowed after j steps. */
  function Overflows(num: int, numadd: int, den: int, j: int): int
    requires den > 0
  {
    (num + j * numadd) / den
  }

  lemma OverflowsStep(num: int, numadd: int, den: int, j: int)
    requires den > 0
    ensures Overflows(num + numadd - den, numadd, den, j - 1) == Overflows(num, numadd, den, j) - 1
  {
    assert num + numadd - den + (j - 1) * numadd == num + j * numadd - den;
    DivSubOne(num + j * numadd, den);
  }

  lemma OverflowsSame(num: int, numadd: int, den: int, j: int)
    requires den > 0
    ensures Overflows(num + numadd, numadd, den, j - 1) == Overflows(num, numadd, den, j)
  {
    assert num + numadd + (j - 1) * numadd == num + j * numadd;
  }

  /** The first plot of the loop and the plots after it, for each outcome of the numerator test. */
  lemma LineFromUnfold(s: LineSetup, x: int, y: int, num: int, cur: int, val: uint8)
    requires SetupShape(s) && 0 <= cur <= s.numpixels && Abs(x) <= 256 + cur && Abs(y) <= 256 + cur
    ensures var r := LineFrom(s, x, y, num, cur, val);
      r[0] == Plot(x, y, val) &&
      (num + s.numadd >= s.den ==>
        r[1..] == LineFrom(s, x + s.xinc1 + s.xinc2, y + s.yinc1 + s.yinc2, num + s.numadd - s.den, cur + 1, val)) &&
      (num + s.numadd < s.den ==>
        r[1..] == LineFrom(s, x + s.xinc2, y + s.yinc2, num + s.numadd, cur + 1, val))
  {}

  /** The state after one pass of the loop body carries on the same plot list. */
  lemma LineFromNext(s: LineSetup, x0: int, y0: int, num0: int, cur: int, val: uint8, x: int, y: int, num: int)
    requires SetupShape(s) && 0 <= cur <= s.numpixels && Abs(x0) <= 256 + cur && Abs(y0) <= 256 + cur
    requires num0 + s.numadd >= s.den ==>
      x == x0 + s.xinc1 + s.xinc2 && y == y0 + s.yinc1 + s.yinc2 && num == num0 + s.numadd - s.den
    requires num0 + s.numadd < s.den ==> x == x0 + s.xinc2 && y == y0 + s.yinc2 && num == num0 + s.numadd
    ensures Abs(x) <= 256 + cur + 1 && Abs(y) <= 256 + cur + 1
    ensures LineFrom(s, x0, y0, num0, cur, val)[1..] == LineFrom(s, x, y, num, cur + 1, val)
  {
    LineFromUnfold(s, x0, y0, num0, cur, val);
  }

  lemma {:induction false} LineFromAt(s: LineSetup, x: int, y: int, num: int, cur: int, val: uint8, j: nat, c: int)
    requires SetupShape(s) && 0 <= cur <= s.numpixels + 1 && Abs(x) <= 256 + cur && Abs(y) <= 256 + cur
    requires s.den > 0 && 0 <= num < s.den
    requires j < s.numpixels + 1 - cur && c == Overflows(num, s.numadd, s.den, j)
    ensures var r := LineFrom(s, x, y, num, cur, val);
      r[j].x == Along(x, j, s.xinc2, c, s.xinc1) && r[j].y == Along(y, j, s.yinc2, c, s.yinc1) && r[j].val == val
    decreases j, 1
  {
    if j == 0 {
      LineFromUnfold(s, x, y, num, cur, val);
      DivUnique(num, s.den, 0, num);
    } else if num + s.numadd >= s.den {
      LineFromAtOverflow(s, x, y, num, cur, val, j, c);
    } else {
      LineFromAtSame(s, x, y, num, cur, val, j, c);
    }
  }

  /** LineFromAt when the first step overflows the numerator: one minor step fewer is left. */
  lemma {:induction false} LineFromAtOverflow(s: LineSetup, x: int, y: int, num: int, cur: int, val: uint8, j: nat, c: int)
    requires SetupShape(s) && 0 <= cur <= s.numpixels + 1 && Abs(x) <= 256 + cur && Abs(y) <= 256 + cur
    requires s.den > 0 && 0 <= num < s.den && num + s.numadd >= s.den
    requires 0 < j < s.numpixels + 1 - cur && c == Overflows(num, s.numadd, s.den, j)
    ensures var r := LineFrom(s, x, y, num, cur, val);
      r[j].x == Along(x, j, s.xinc2, c, s.xinc1) && r[j].y == Along(y, j, s.yinc2, c, s.yinc1) && r[j].val == val
    decreases j, 0
  {
    var num1 := num + s.numadd;
    LineFromShift(s, x, y, num, cur, val, j);
    StepSum(x, s.xinc1, s.xinc2, j, c);
    StepSum(y, s.yinc1, s.yinc2, j, c);
    assert c - 1 == Overflows(num1 - s.den, s.numadd, s.den, j - 1) by {
      OverflowsStep(num, s.numadd, s.den, j);
    }
    LineFromAt(s, x + s.xinc1 + s.xinc2, y + s.yinc1 + s.yinc2, num1 - s.den, cur + 1, val, j - 1, c - 1);
  }

  /** LineFromAt when the first step does not overflow the numerator. */
  lemma {:induction false} LineFromAtSame(s: LineSetup, x: int, y: int, num: int, cur: int, val: uint8, j: nat, c: int)
    requires SetupShape(s) && 0 <= cur <= s.numpixels + 1 && Abs(x) <= 256 + cur && Abs(y) <= 256 + cur
    requires s.den > 0 && 0 <= num < s.den && num + s.numadd < s.den
    requires 0 < j < s.numpixels + 1 - cur && c == Overflows(num, s.numadd, s.den, j)
    ensures var r := LineFrom(s, x, y, num, cur, val);
      r[j].x == Along(x, j, s.xinc2, c, s.xinc1) && r[j].y == Along(y, j, s.yinc2, c, s.yinc1) && r[j].val == val
    decreases j, 0
  {
    var num1 := num + s.numadd;
    LineFromShift(s, x, y, num, cur, val, j);
    StepSum(x, s.xinc1, s.xinc2, j, c);
    StepSum(y, s.yinc1, s.yinc2, j, c);
    assert c == Overflows(num1, s.numadd, s.den, j - 1) by {
      OverflowsSame(num, s.numadd, s.den, j);
    }
    LineFromAt(s, x + s.xinc2, y + s.yinc2, num1, cur + 1, val, j - 1, c);
  }

  /** Plot j of the loop from some state is plot j - 1 of the loop from the next state. */
  lemma LineFromShift(s: LineSetup, x: int, y: int, num: int, cur: int, val: uint8, j: nat)
    requires SetupShape(s) && 0 <= cur <= s.numpixels && Abs(x) <= 256 + cur && Abs(y) <= 256 + cur
    requires 0 < j < s.numpixels + 1 - cur
    ensures num + s.numadd >= s.den ==>
      LineFrom(s, x, y, num, cur, val)[j] ==
      LineFrom(s, x + s.xinc1 + s.xinc2, y + s.yinc1 + s.yinc2, num + s.numadd - s.den, cur + 1, val)[j - 1]
    ensures num + s.numadd < s.den ==>
      LineFrom(s, x, y, num, cur, val)[j] == LineFrom(s, x + s.xinc2, y + s.yinc2, num + s.numadd, cur + 1, val)[j - 1]
  {
    var r := LineFrom(s, x, y, num, cur, val);
    LineFromUnfold(s, x, y, num, cur, val);
    assert r[j] == r[1..][j - 1];
  }


  /** Between two steps the numerator overflows at most once. */
  lemma OverflowsNext(num: int, numadd: int, den: int, j: int)
    requires den > 0 && 0 <= numadd <= den
    ensures Overflows(num, numadd, den, j + 1) == Overflows(num, numadd, den, j) ||
            Overflows(num, numadd, den, j + 1) == Overflows(num, numadd, den, j) + 1
  {
    var a := num + j * numadd;
    var q, r := a / den, a % den;
    assert num + (j + 1) * numadd == q * den + r + numadd;
    if r + numadd < den {
      DivUnique(num + (j + 1) * numadd, den, q, r + numadd);
    } else {
      assert num + (j + 1) * numadd == (q + 1) * den + (r + numadd - den);
      DivUnique(num + (j + 1) * numadd, den, q + 1, r + numadd - den);
    }
  }

  lemma AlongNext(x: int, j: int, b: int, c: int, a: int)
    ensures Along(x, j + 1, b, c, a) == Along(x, j, b, c, a) + b
    ensures Along(x, j + 1, b, c + 1, a) == Along(x, j, b, c, a) + b + a
  {
    assert (j + 1) * b == j * b + b;
    assert (c + 1) * a == c * a + a;
  }

  /** drawLine plots max(|x2 - x1|, |y2 - y1|) + 1 pixels, the first at (x1, y1) and the last at (x2, y2). */
  lemma LineEndpoints(x1: uint8, y1: uint8, x2: uint8, y2: uint8, val: uint8)
    requires LineInRange(x1, y1, x2, y2)
    ensures var r := LinePlots(x1, y1, x2, y2, val);
      |r| == (if Abs(x2 - x1) >= Abs(y2 - y1) then Abs(x2 - x1) else Abs(y2 - y1)) + 1 &&
      r[0] == Plot(x1, y1, val) && r[|r| - 1] == Plot(x2, y2, val)
  {
    var s := Setup(x1, y1, x2, y2);
    LineFromUnfold(s, x1, y1, s.num, 0, val);
    if s.den > 0 {
      LineLast(x1, y1, x2, y2, val);
    }
  }

  /** When the end points differ, the loop's last plot is at (x2, y2). */
  lemma LineLast(x1: uint8, y1: uint8, x2: uint8, y2: uint8, val: uint8)
    requires LineInRange(x1, y1, x2, y2) && Setup(x1, y1, x2, y2).den > 0
    ensures var r := LinePlots(x1, y1, x2, y2, val);
      r[|r| - 1] == Plot(x2, y2, val)
  {
    var s := Setup(x1, y1, x2, y2);
    var r := LinePlots(x1, y1, x2, y2, val);
    var k := s.numpixels;
    var c := Overflows(s.num, s.numadd, s.den, k);
    assert c == s.numadd by {
      DivUnique(s.num + k * s.numadd, s.den, s.numadd, s.num);
    }
    assert r[k].x == Along(x1, k, s.xinc2, c, s.xinc1) && r[k].y == Along(y1, k, s.yinc2, c, s.yinc1) && r[k].val == val by {
      LineFromAt(s, x1, y1, s.num, 0, val, k, c);
    }
    AlongEnd(x1, y1, x2, y2);
  }

  /** After all steps, both coordinates have reached the end point. */
  lemma AlongEnd(x1: uint8, y1: uint8, x2: uint8, y2: uint8)
    ensures var s := Setup(x1, y1, x2, y2);
      Along(x1, s.numpixels, s.xinc2, s.numadd, s.xinc1) == x2 as int &&
      Along(y1, s.numpixels, s.yinc2, s.numadd, s.yinc1) == y2 as int
  {
    var s := Setup(x1, y1, x2, y2);
    AbsStep(x1 as int, x2 as int);
    AbsStep(y1 as int, y2 as int);
    if Abs(x2 - x1) >= Abs(y2 - y1) {
      assert s.numpixels == Abs(x2 - x1) && s.numadd == Abs(y2 - y1);
    } else {
      assert s.numpixels == Abs(y2 - y1) && s.numadd == Abs(x2 - x1);
    }
  }

  lemma AbsStep(a: int, b: int)
    ensures a + Abs(b - a) * (if b >= a then 1 else -1) == b
    ensures a + Abs(b - a) * 0 == a
  {}

  /**
   * Each step of drawLine moves exactly one unit along the major axis and 0
   * or 1 unit along the minor axis, both towards the end point.
   */
  lemma LineSteps(x1: uint8, y1: uint8, x2: uint8, y2: uint8, val: uint8, j: nat)
    requires LineInRange(x1, y1, x2, y2)
    requires j + 1 < |LinePlots(x1, y1, x2, y2, val)|
    ensures var r := LinePlots(x1, y1, x2, y2, val);
      var dx, dy := r[j + 1].x - r[j].x, r[j + 1].y - r[j].y;
      var xs, ys := (if x2 >= x1 then 1 else -1), (if y2 >= y1 then 1 else -1);
      (Abs(x2 - x1) >= Abs(y2 - y1) ==> dx == xs && (dy == 0 || dy == ys)) &&
      (Abs(x2 - x1) < Abs(y2 - y1) ==> dy == ys && (dx == 0 || dx == xs))
  {
    var s := Setup(x1, y1, x2, y2);
    var r := LinePlots(x1, y1, x2, y2, val);
    var c, c1 := Overflows(s.num, s.numadd, s.den, j), Overflows(s.num, s.numadd, s.den, j + 1);
    assert r[j].x == Along(x1, j, s.xinc2, c, s.xinc1) && r[j].y == Along(y1, j, s.yinc2, c, s.yinc1) by {
      LineFromAt(s, x1, y1, s.num, 0, val, j, c);
    }
    assert r[j + 1].x == Along(x1, j + 1, s.xinc2, c1, s.xinc1) && r[j + 1].y == Along(y1, j + 1, s.yinc2, c1, s.yinc1) by {
      LineFromAt(s, x1, y1, s.num, 0, val, j + 1, c1);
    }
    assert c1 == c || c1 == c + 1 by {
      OverflowsNext(s.num, s.numadd, s.den, j);
    }
    AlongNext(x1, j, s.xinc2, c, s.xinc1);
    AlongNext(y1, j, s.yinc2, c, s.yinc1);
    StepShape(x1, y1, x2, y2, r[j + 1].x - r[j].x, r[j + 1].y - r[j].y);
  }

  /** A step by the major increments, or by the major and the minor ones, has the shape drawLine promises. */
  lemma StepShape(x1: uint8, y1: uint8, x2: uint8, y2: uint8, dx: int, dy: int)
    requires var s := Setup(x1, y1, x2, y2);
      (dx == s.xinc2 && dy == s.yinc2) || (dx == s.xinc2 + s.xinc1 && dy == s.yinc2 + s.yinc1)
    ensures var xs, ys := (if x2 >= x1 then 1 else -1), (if y2 >= y1 then 1 else -1);
      (Abs(x2 - x1) >= Abs(y2 - y1) ==> dx == xs && (dy == 0 || dy == ys)) &&
      (Abs(x2 - x1) < Abs(y2 - y1) ==> dy == ys && (dx == 0 || dx == xs))
  {}

  /**
   * drawLine is not symmetric in its end points: (0,0)-(2,1) plots (1,1),
   * while (2,1)-(0,0) plots (1,0) instead.
   */
  lemma LineNotEndpointSymmetric()
    ensures LinePlots(0, 0, 2, 1, 1) == [Plot(0, 0, 1), Plot(1, 1, 1), Plot(2, 1, 1)]
    ensures LinePlots(2, 1, 0, 0, 1) == [Plot(2, 1, 1), Plot(1, 0, 1), Plot(0, 0, 1)]
  {
    LineForwardExample();
    LineBackwardExample();
  }

  /** drawLine(0, 0, 2, 1, 1): the set-up, then the loop. */
  lemma LineForwardExample()
    ensures LinePlots(0, 0, 2, 1, 1) == [Plot(0, 0, 1), Plot(1, 1, 1), Plot(2, 1, 1)]
  {
    assert Setup(0, 0, 2, 1) == LineSetup(0, 1, 1, 0, 2, 1, 1, 2);
    LineForwardLoop();
  }

  /** The loop of drawLine(0, 0, 2, 1, 1), pass by pass from the last one. */
  lemma LineForwardLoop()
    ensures LineFrom(LineSetup(0, 1, 1, 0, 2, 1, 1, 2), 0, 0, 1, 0, 1) == [Plot(0, 0, 1), Plot(1, 1, 1), Plot(2, 1, 1)]
  {
    var s := LineSetup(0, 1, 1, 0, 2, 1, 1, 2);
    assert LineFrom(s, 3, 2, 0, 3, 1) == [];
    assert LineFrom(s, 2, 1, 1, 2, 1) == [Plot(2, 1, 1)];
    assert LineFrom(s, 1, 1, 0, 1, 1) == [Plot(1, 1, 1), Plot(2, 1, 1)];
  }

  /** drawLine(2, 1, 0, 0, 1): the set-up, then the loop. */
  lemma LineBackwardExample()
    ensures LinePlots(2, 1, 0, 0, 1) == [Plot(2, 1, 1), Plot(1, 0, 1), Plot(0, 0, 1)]
  {
    assert Setup(2, 1, 0, 0) == LineSetup(0, -1, -1, 0, 2, 1, 1, 2);
    LineBackwardLoop();
  }

  /** The loop of drawLine(2, 1, 0, 0, 1), pass by pass from the last one. */
  lemma LineBackwardLoop()
    ensures LineFrom(LineSetup(0, -1, -1, 0, 2, 1, 1, 2), 2, 1, 1, 0, 1) == [Plot(2, 1, 1), Plot(1, 0, 1), Plot(0, 0, 1)]
  {
    var t := LineSetup(0, -1, -1, 0, 2, 1, 1, 2);
    assert LineFrom(t, -1, -1, 0, 3, 1) == [];
    assert LineFrom(t, 0, 0, 1, 2, 1) == [Plot(0, 0, 1)];
    assert LineFrom(t, 1, 0, 0, 1, 1) == [Plot(1, 0, 1), Plot(0, 0, 1)];
  }

  // ---------------------------------------------------------------------------
  // drawRectangle

  /** All four edges of drawRectangle are lines drawLine handles exactly. */
  predicate RectInRange(x: uint8, y: uint8, width: uint8, height: uint8)
  {
    var x2, y2 := (x + width) % 256, (y + height) % 256;
    LineInRange(x, y, x, y2) && LineInRange(x2, y, x2, y2) &&
    LineInRange(x, y, x2, y) && LineInRange(x, y2, x2, y2)
  }

  /** Left, right, top and bottom edge, in that order; the sums are uint8_t. */
  function RectPlots(x: uint8, y: uint8, width: uint8, height: uint8, colour: uint8): (r: seq<Plot>)
    requires RectInRange(x, y, width, height)
    ensures |r| == 2 * (Abs((x + width) % 256 - x) + 1) + 2 * (Abs((y + height) % 256 - y) + 1)
    ensures forall p <- r :: p.val == colour
  {
    var x2, y2 := (x + width) % 256, (y + height) % 256;
    LinePlots(x, y, x, y2, colour) + LinePlots(x2, y, x2, y2, colour) +
    LinePlots(x, y, x2, y, colour) + LinePlots(x, y2, x2, y2, colour)
  }

  /** The four corners of the rectangle are plotted. */
  lemma RectCorners(x: uint8, y: uint8, width: uint8, height: uint8, colour: uint8)
    requires RectInRange(x, y, width, height)
    ensures var x2, y2 := (x + width) % 256, (y + height) % 256;
      var r := RectPlots(x, y, width, height, colour);
      Plot(x, y, colour) in r && Plot(x2, y, colour) in r &&
      Plot(x, y2, colour) in r && Plot(x2, y2, colour) in r
  {
    var x2, y2 := (x + width) % 256, (y + height) % 256;
    var a, b := LinePlots(x, y, x, y2, colour), LinePlots(x2, y, x2, y2, colour);
    var c, d := LinePlots(x, y, x2, y, colour), LinePlots(x, y2, x2, y2, colour);
    LineEndpoints(x, y, x, y2, colour);
    LineEndpoints(x2, y, x2, y2, colour);
    LineEndpoints(x, y, x2, y, colour);
    LineEndpoints(x, y2, x2, y2, colour);
    assert a[0] in a + b + c + d;
    assert b[0] in a + b + c + d;
    assert a[|a| - 1] in a + b + c + d;
    assert b[|b| - 1] in a + b + c + d;
  }

  // ---------------------------------------------------------------------------
  // drawCircle: the midpoint circle

  /** The eight setPixel calls of one pass of drawCircle's loop, in source order. */
  function Octants(xp: uint8, yp: uint8, xoff: int8, yoff: int8, col: uint8): (r: seq<Plot>)
    ensures |r| == 8
  {
    [Plot(xp + xoff, yp + yoff, col), Plot(xp - xoff, yp + yoff, col),
     Plot(xp - xoff, yp - yoff, col), Plot(xp + xoff, yp - yoff, col),
     Plot(xp + yoff, yp + xoff, col), Plot(xp - yoff, yp + xoff, col),
     Plot(xp - yoff, yp - xoff, col), Plot(xp + yoff, yp - xoff, col)]
  }

  /**
   * The eight plots of one pass are the reflections of (xoff, yoff) in the
   * axes and diagonals through the centre, all in the circle's colour.
   */
  lemma OctantsReflect(xp: uint8, yp: uint8, xoff: int8, yoff: int8, col: uint8)
    ensures var r := Octants(xp, yp, xoff, yoff, col);
      forall i :: 0 <= i < 8 ==>
        r[i].val == col &&
        ((Abs(r[i].x - xp) == Abs(xoff) && Abs(r[i].y - yp) == Abs(yoff)) ||
         (Abs(r[i].x - xp) == Abs(yoff) && Abs(r[i].y - yp) == Abs(xoff)))
  {}

  /**
   * The plots of drawCircle's loop from the state (balance, xoff, yoff) on.
   * `balance += xoff++ + xoff` is read left to right: the old xoff plus the
   * incremented one, stored back into the int8_t balance; `balance -= --yoff
   * + yoff` subtracts twice the decremented yoff.  With yoff at most 126 the
   * increment of xoff cannot wrap.
   */
  function CircleFrom(xp: uint8, yp: uint8, col: uint8, balance: int8, xoff: int8, yoff: int8): seq<Plot>
    requires 0 <= xoff && yoff <= 126
    decreases yoff - xoff + 1
  {
    if xoff > yoff then []
    else
      var b1 := Int8(balance + xoff + (xoff + 1));
      if b1 >= 0 then
        Octants(xp, yp, xoff, yoff, col) + CircleFrom(xp, yp, col, Int8(b1 - 2 * (yoff - 1)), xoff + 1, yoff - 1)
      else
        Octants(xp, yp, xoff, yoff, col) + CircleFrom(xp, yp, col, b1, xoff + 1, yoff)
  }

  /**
   * Eight plots a pass; no pass when xoff > yoff, otherwise at least one and
   * at most yoff - xoff + 1.
   */
  lemma {:induction false} CircleFromLength(xp: uint8, yp: uint8, col: uint8, balance: int8, xoff: int8, yoff: int8)
    requires 0 <= xoff && yoff <= 126
    ensures var r := CircleFrom(xp, yp, col, balance, xoff, yoff);
      |r| % 8 == 0 &&
      (xoff > yoff ==> r == []) &&
      (xoff <= yoff ==> 8 <= |r| <= 8 * (yoff - xoff + 1))
    decreases yoff - xoff + 1
  {
    if xoff > yoff { return; }
    var b1 := Int8(balance + xoff + (xoff + 1));
    var y1: int8 := if b1 >= 0 then yoff - 1 else yoff;
    var b2: int8 := if b1 >= 0 then Int8(b1 - 2 * (yoff - 1)) else b1;
    var rest := CircleFrom(xp, yp, col, b2, xoff + 1, y1);
    assert CircleFrom(xp, yp, col, balance, xoff, yoff) == Octants(xp, yp, xoff, yoff, col) + rest;
    CircleFromLength(xp, yp, col, b2, xoff + 1, y1);
    EightMore(|rest|);
  }

  /** Adding a pass keeps the plot count a multiple of eight. */
  lemma EightMore(n: nat)
    requires n % 8 == 0
    ensures (8 + n) % 8 == 0
  {}

  /** One pass of the loop: the eight plots, then the plots from the updated state. */
  lemma CircleFromUnfold(xp: uint8, yp: uint8, col: uint8, balance: int8, xoff: int8, yoff: int8)
    requires 0 <= xoff <= yoff <= 126
    ensures var r := CircleFrom(xp, yp, col, balance, xoff, yoff);
      |r| >= 8 && r[..8] == Octants(xp, yp, xoff, yoff, col) &&
      r == r[..8] + r[8..]
  {}

  /** The state after one pass of the loop body carries on the same plot list. */
  lemma CircleFromNext(xp: uint8, yp: uint8, col: uint8, b0: int8, x0: int8, y0: int8, balance: int8, xoff: int8, yoff: int8)
    requires 0 <= x0 <= y0 <= 126 && xoff == x0 + 1
    requires var b1 := Int8(b0 + x0 + (x0 + 1));
      (b1 >= 0 ==> yoff == y0 - 1 && balance == Int8(b1 - 2 * (y0 - 1))) &&
      (b1 < 0 ==> yoff == y0 && balance == b1)
    ensures CircleFrom(xp, yp, col, b0, x0, y0)[8..] == CircleFrom(xp, yp, col, balance, xoff, yoff)
  {
    assert Octants(xp, yp, x0, y0, col)[8..] == [];
  }

  /** An int8_t holding a uint8_t other than 127 is at most 126. */
  lemma Int8OfByte(v: uint8)
    requires v != 127
    ensures Int8(v) <= 126 && (v < 128 ==> Int8(v) == v) && (v >= 128 ==> Int8(v) < 0)
  {}

  /**
   * The toolbox setPixel calls of drawCircle(xp, yp, radius, col): yoff
   * starts at radius and balance at -radius, both stored into int8_t.
   */
  function CirclePlots(xp: uint8, yp: uint8, radius: uint8, col: uint8): (r: seq<Plot>)
    requires radius != 127
    ensures |r| % 8 == 0
    ensures radius >= 128 ==> r == []
    ensures radius < 127 ==> 8 <= |r| <= 8 * (radius + 1)
  {
    Int8OfByte(radius);
    CircleFromLength(xp, yp, col, Int8(0 - radius as int), 0, Int8(radius));
    CircleFrom(xp, yp, col, Int8(0 - radius as int), 0, Int8(radius))
  }

  /** The first pass plots the four points at distance radius along the axes. */
  lemma CircleExtremes(xp: uint8, yp: uint8, radius: uint8, col: uint8)
    requires radius < 127
    ensures var r := CirclePlots(xp, yp, radius, col);
      |r| >= 8 && r[..8] == Octants(xp, yp, 0, radius, col) &&
      Plot(xp, yp + radius, col) in r && Plot(xp, yp - radius, col) in r &&
      Plot(xp + radius, yp, col) in r && Plot(xp - radius, yp, col) in r
  {
    var r := CirclePlots(xp, yp, radius, col);
    Int8OfByte(radius);
    var o := Octants(xp, yp, 0, radius, col);
    assert r[..8] == o;
    assert o[0] in r && o[2] in r && o[4] in r && o[6] in r;
  }

  /** Some plot of ps is at (x, y). */
  predicate Visits(ps: seq<Plot>, x: int, y: int)
  {
    exists i :: 0 <= i < |ps| && ps[i].x == x && ps[i].y == y
  }

  /**
   * The positions of ps are symmetric about the vertical and the horizontal
   * line through (xp, yp) and about the diagonal through it.
   */
  predicate MirrorClosed(xp: int, yp: int, ps: seq<Plot>)
  {
    forall i :: 0 <= i < |ps| ==>
      Visits(ps, 2 * xp - ps[i].x, ps[i].y) && Visits(ps, ps[i].x, 2 * yp - ps[i].y) &&
      Visits(ps, xp + (ps[i].y - yp), yp + (ps[i].x - xp))
  }

  /**
   * Within a pass of eight plots, the mirror image of plot m in the vertical
   * line, the horizontal line and the diagonal is plot MirrorV[m], MirrorH[m]
   * and MirrorD[m].
   */
  const MirrorV: seq<int> := [1, 0, 3, 2, 5, 4, 7, 6]
  const MirrorH: seq<int> := [3, 2, 1, 0, 7, 6, 5, 4]
  const MirrorD: seq<int> := [4, 7, 6, 5, 0, 3, 2, 1]

  /** Every plot of the pass g has its three mirror images in g. */
  predicate PassMirrored(xp: int, yp: int, g: seq<Plot>)
    requires |g| == 8
  {
    forall m :: 0 <= m < 8 ==>
      g[MirrorV[m]].x == 2 * xp - g[m].x && g[MirrorV[m]].y == g[m].y &&
      g[MirrorH[m]].x == g[m].x && g[MirrorH[m]].y == 2 * yp - g[m].y &&
      g[MirrorD[m]].x == xp + (g[m].y - yp) && g[MirrorD[m]].y == yp + (g[m].x - xp)
  }

  /** Pass k: plots 8k .. 8k+7. */
  function Pass(ps: seq<Plot>, k: int): seq<Plot>
    requires 0 <= k && 8 * k + 8 <= |ps|
  {
    ps[8 * k .. 8 * k + 8]
  }

  /** ps is a sequence of passes of eight plots, each closed under the three mirrors. */
  predicate PassesMirrored(xp: int, yp: int, ps: seq<Plot>)
  {
    |ps| % 8 == 0 && forall k :: 0 <= k < |ps| / 8 ==> PassMirrored(xp, yp, Pass(ps, k))
  }

  lemma OctantsMirrored(xp: uint8, yp: uint8, xoff: int8, yoff: int8, col: uint8)
    ensures PassesMirrored(xp, yp, Octants(xp, yp, xoff, yoff, col))
  {
    var o := Octants(xp, yp, xoff, yoff, col);
    assert Pass(o, 0) == o;
    forall m | 0 <= m < 8
      ensures o[MirrorV[m]].x == 2 * xp - o[m].x && o[MirrorV[m]].y == o[m].y &&
              o[MirrorH[m]].x == o[m].x && o[MirrorH[m]].y == 2 * yp - o[m].y &&
              o[MirrorD[m]].x == xp + (o[m].y - yp) && o[MirrorD[m]].y == yp + (o[m].x - xp)
    {
      if m < 4 {
        if m < 2 {
          assert m == 0 || m == 1;
        } else {
          assert m == 2 || m == 3;
        }
      } else {
        if m < 6 {
          assert m == 4 || m == 5;
        } else {
          assert m == 6 || m == 7;
        }
      }
    }
  }

  lemma MirroredAppend(xp: int, yp: int, a: seq<Plot>, b: seq<Plot>)
    requires PassesMirrored(xp, yp, a) && PassesMirrored(xp, yp, b)
    ensures PassesMirrored(xp, yp, a + b)
  {
    var c := a + b;
    var n := |a| / 8;
    assert |c| / 8 == n + |b| / 8;
    forall k | 0 <= k < |c| / 8
      ensures PassMirrored(xp, yp, Pass(c, k))
    {
      if k < n {
        assert Pass(c, k) == Pass(a, k);
      } else {
        assert Pass(c, k) == Pass(b, k - n);
      }
    }
  }

  /** Passes closed under the mirrors make a plot list whose positions are closed under them. */
  lemma MirroredClosed(xp: int, yp: int, ps: seq<Plot>)
    requires PassesMirrored(xp, yp, ps)
    ensures MirrorClosed(xp, yp, ps)
  {
    forall i | 0 <= i < |ps|
      ensures Visits(ps, 2 * xp - ps[i].x, ps[i].y) && Visits(ps, ps[i].x, 2 * yp - ps[i].y) &&
              Visits(ps, xp + (ps[i].y - yp), yp + (ps[i].x - xp))
    {
      PassIndex(i, |ps|);
      MirrorInPass(xp, yp, ps, i / 8, i % 8);
    }
  }

  /** Plot i lies in pass i / 8, at place i % 8 of it. */
  lemma PassIndex(i: nat, n: nat)
    requires i < n && n % 8 == 0
    ensures i / 8 < n / 8 && 8 * (i / 8) + 8 <= n && i == 8 * (i / 8) + i % 8
  {}

  /** The three mirror images of place m of pass k are plots of ps. */
  lemma MirrorInPass(xp: int, yp: int, ps: seq<Plot>, k: nat, m: nat)
    requires 8 * k + 8 <= |ps| && m < 8 && PassMirrored(xp, yp, Pass(ps, k))
    ensures var p := ps[8 * k + m];
      Visits(ps, 2 * xp - p.x, p.y) && Visits(ps, p.x, 2 * yp - p.y) &&
      Visits(ps, xp + (p.y - yp), yp + (p.x - xp))
  {
    var g := Pass(ps, k);
    assert g[m] == ps[8 * k + m];
    assert g[MirrorV[m]] == ps[8 * k + MirrorV[m]];
    assert g[MirrorH[m]] == ps[8 * k + MirrorH[m]];
    assert g[MirrorD[m]] == ps[8 * k + MirrorD[m]];
  }

  lemma {:induction false} CircleFromMirrored(xp: uint8, yp: uint8, col: uint8, balance: int8, xoff: int8, yoff: int8)
    requires 0 <= xoff && yoff <= 126
    ensures PassesMirrored(xp, yp, CircleFrom(xp, yp, col, balance, xoff, yoff))
    decreases yoff - xoff + 1, 1
  {
    if xoff <= yoff {
      if Int8(balance + xoff + (xoff + 1)) >= 0 {
        CircleFromMirroredStep(xp, yp, col, balance, xoff, yoff);
      } else {
        CircleFromMirroredKeep(xp, yp, col, balance, xoff, yoff);
      }
    }
  }

  /** A pass after which the balance is non-negative, so yoff steps down. */
  lemma {:induction false} CircleFromMirroredStep(xp: uint8, yp: uint8, col: uint8, balance: int8, xoff: int8, yoff: int8)
    requires 0 <= xoff <= yoff <= 126 && Int8(balance + xoff + (xoff + 1)) >= 0
    ensures PassesMirrored(xp, yp, CircleFrom(xp, yp, col, balance, xoff, yoff))
    decreases yoff - xoff + 1, 0
  {
    var b2 := Int8(Int8(balance + xoff + (xoff + 1)) - 2 * (yoff - 1));
    OctantsMirrored(xp, yp, xoff, yoff, col);
    CircleFromMirrored(xp, yp, col, b2, xoff + 1, yoff - 1);
    MirroredAppend(xp, yp, Octants(xp, yp, xoff, yoff, col), CircleFrom(xp, yp, col, b2, xoff + 1, yoff - 1));
  }

  /** A pass after which the balance is negative, so yoff stays. */
  lemma {:induction false} CircleFromMirroredKeep(xp: uint8, yp: uint8, col: uint8, balance: int8, xoff: int8, yoff: int8)
    requires 0 <= xoff <= yoff <= 126 && Int8(balance + xoff + (xoff + 1)) < 0
    ensures PassesMirrored(xp, yp, CircleFrom(xp, yp, col, balance, xoff, yoff))
    decreases yoff - xoff + 1, 0
  {
    var b1 := Int8(balance + xoff + (xoff + 1));
    OctantsMirrored(xp, yp, xoff, yoff, col);
    CircleFromMirrored(xp, yp, col, b1, xoff + 1, yoff);
    MirroredAppend(xp, yp, Octants(xp, yp, xoff, yoff, col), CircleFrom(xp, yp, col, b1, xoff + 1, yoff));
  }

  /**
   * drawCircle's plots are symmetric: the mirror image of every plotted
   * position in the vertical, the horizontal and the diagonal line through
   * the centre is plotted too.
   */
  lemma CircleSymmetric(xp: uint8, yp: uint8, radius: uint8, col: uint8)
    requires radius != 127
    ensures MirrorClosed(xp, yp, CirclePlots(xp, yp, radius, col))
  {
    Int8OfByte(radius);
    CircleFromMirrored(xp, yp, col, Int8(0 - radius as int), 0, Int8(radius));
    MirroredClosed(xp, yp, CirclePlots(xp, yp, radius, col));
  }

  /**
   * p is on the circle in the midpoint sense: with m the larger of |dx| and
   * |dy|, r*r - m <= dx*dx + dy*dy < r*r + m.
   */
  predicate NearCircle(xp: int, yp: int, radius: int, p: Plot)
  {
    var dx, dy := p.x - xp, p.y - yp;
    var m := if Abs(dx) >= Abs(dy) then Abs(dx) else Abs(dy);
    radius * radius - m <= dx * dx + dy * dy < radius * radius + m
  }

  lemma OctantsNear(xp: uint8, yp: uint8, radius: int, xoff: int8, yoff: int8, col: uint8)
    requires 0 <= xoff <= yoff
    requires radius * radius - yoff <= xoff * xoff + yoff * yoff < radius * radius + yoff
    ensures forall p <- Octants(xp, yp, xoff, yoff, col) :: NearCircle(xp, yp, radius, p)
  {
    assert (-xoff) * (-xoff) == xoff * xoff && (-yoff) * (-yoff) == yoff * yoff;
  }

  /**
   * What the loop keeps while no int8_t wraps (radius at most 63): balance is
   * xoff^2 + yoff^2 - radius^2 - yoff, and while the loop runs it lies in
   * [-2 yoff, -1].
   */
  predicate CircleState(radius: int, balance: int, xoff: int, yoff: int)
  {
    0 <= xoff && yoff <= radius <= 63 &&
    balance == xoff * xoff + yoff * yoff - radius * radius - yoff &&
    (xoff <= yoff ==> -2 * yoff <= balance <= -1)
  }

  lemma CircleStateStep(radius: int, balance: int8, xoff: int8, yoff: int8)
    requires CircleState(radius, balance, xoff, yoff) && xoff <= yoff
    ensures var b1 := Int8(balance + xoff + (xoff + 1));
      b1 == balance + 2 * xoff + 1 &&
      (b1 >= 0 ==> Int8(b1 - 2 * (yoff - 1)) == b1 - 2 * (yoff - 1) &&
                   CircleState(radius, b1 - 2 * (yoff - 1), xoff + 1, yoff - 1)) &&
      (b1 < 0 ==> CircleState(radius, b1, xoff + 1, yoff))
  {
    assert (xoff + 1) * (xoff + 1) == xoff * xoff + 2 * xoff + 1;
    assert (yoff - 1) * (yoff - 1) == yoff * yoff - 2 * yoff + 1;
  }

  lemma {:induction false} CircleFromNear(xp: uint8, yp: uint8, col: uint8, radius: int, balance: int8, xoff: int8, yoff: int8)
    requires CircleState(radius, balance, xoff, yoff)
    ensures forall p <- CircleFrom(xp, yp, col, balance, xoff, yoff) :: NearCircle(xp, yp, radius, p)
    decreases yoff - xoff + 1
  {
    if xoff <= yoff {
      var o := Octants(xp, yp, xoff, yoff, col);
      OctantsNear(xp, yp, radius, xoff, yoff, col);
      CircleStateStep(radius, balance, xoff, yoff);
      var b1 := Int8(balance + xoff + (xoff + 1));
      var rest := if b1 >= 0 then CircleFrom(xp, yp, col, Int8(b1 - 2 * (yoff - 1)), xoff + 1, yoff - 1)
                  else CircleFrom(xp, yp, col, b1, xoff + 1, yoff);
      if b1 >= 0 {
        CircleFromNear(xp, yp, col, radius, Int8(b1 - 2 * (yoff - 1)), xoff + 1, yoff - 1);
      } else {
        CircleFromNear(xp, yp, col, radius, b1, xoff + 1, yoff);
      }
      assert CircleFrom(xp, yp, col, balance, xoff, yoff) == o + rest;
    }
  }

  /**
   * For radius 1 .. 63, where no int8_t of drawCircle wraps, every plotted
   * pixel is within the midpoint tolerance of the circle of that radius.
   */
  lemma CircleNearRadius(xp: uint8, yp: uint8, radius: uint8, col: uint8)
    requires 1 <= radius <= 63
    ensures forall p <- CirclePlots(xp, yp, radius, col) :: NearCircle(xp, yp, radius, p)
  {
    Int8OfByte(radius);
    CircleFromNear(xp, yp, col, radius, Int8(0 - radius as int), 0, Int8(radius));
  }

  // ---------------------------------------------------------------------------
  // The toolbox object

  class DisplayToolbox {
    /** The display chain the toolbox draws on. */
    const disp: MatrixDisplay

    constructor (disp: MatrixDisplay)
      ensures this.disp == disp
    {
      this.disp := disp;
    }

    /**
     * setPixel(x, y, val, paint): the driver's setPixel on display
     * calcDispNum(x), live buffer.  `adjustedFirst` says whether the compiler
     * ran calcDispNum before copying x; it only changes the nibble address the
     * paint path sends.
     */
    method SetPixel(x: int16, y: int16, val: int16, paint: bool, adjustedFirst: bool)
      requires disp.Valid() && Fits(disp.displayBuffers.Length, Plot(x, y, val))
      requires paint ==> XDisplay(x) < disp.displayCount
      modifies disp, disp.displayBuffers, disp.ShadowFrame()
      ensures disp.Live() == ApplyPlot(old(disp.Live()), Plot(x, y, val))
      ensures disp.Shadow() == old(disp.Shadow())
      ensures !paint ==> disp.wire == old(disp.wire)
      ensures paint ==> (disp.wire == old(disp.wire) +
        NibbleFrame(disp.codes, XDisplay(x),
          DisplayXYToIndex(if adjustedFirst then XColumn(x) else x % 256, y % 256) as Byte,
          [PaintNibble(disp.Live()[PlotAddress(Plot(x, y, val))], y % 256)]))
    {
      var split := CalcDispNum(x);
      var dispNum := split.0;
      var column := if adjustedFirst then split.1 % 256 else x % 256;
      EitherOrderSameColumn(x);
      disp.SetPixel(dispNum, column, y % 256, val % 256, paint, false);
    }

    /**
     * getPixel(x, y, fromShadow): the driver's getPixel on display
     * calcDispNum(x), so columns of displays above 0 are read through the
     * doubled offset.  The argument order does not matter here: getPixel
     * uses x only through x & 31.
     */
    function GetPixel(x: int16, y: int16, fromShadow: bool): (r: uint8)
      requires disp.Valid() && (fromShadow ==> disp.shadowBuffers.Some?)
      requires ReadAddress(XDisplay(x), XColumn(x)) < disp.displayBuffers.Length && y % 256 < 23
      reads disp.displayBuffers, disp.ShadowFrame()
      ensures r == 0 || r == 1
      ensures r == 1 <==> ReadBit(disp.View(fromShadow), ReadAddress(XDisplay(x), XColumn(x)), y % 256)
      ensures 0 <= x < BackBufferSize ==> (r == 1 <==> PixelIn(disp.View(fromShadow), 0, x, y % 256))
    {
      if 0 <= x < BackBufferSize then
        LowColumnAddress(x);
        disp.GetPixel(0, x as uint8, y % 256, fromShadow)
      else
        disp.GetPixel(XDisplay(x), XColumn(x), y % 256, fromShadow)
    }

    /**
     * drawLine(x1, y1, x2, y2, val): Bresenham's loop, one unpainted
     * setPixel per step, so the live buffer ends as those plots leave it.
     */
    method DrawLine(x1: uint8, y1: uint8, x2: uint8, y2: uint8, val: uint8)
      requires disp.Valid() && LineInRange(x1, y1, x2, y2)
      requires AllFit(disp.displayBuffers.Length, LinePlots(x1, y1, x2, y2, val))
      modifies disp, disp.displayBuffers, disp.ShadowFrame()
      ensures disp.Live() == ApplyPlots(old(disp.Live()), LinePlots(x1, y1, x2, y2, val))
      ensures disp.Shadow() == old(disp.Shadow()) && disp.wire == old(disp.wire)
    {
      var s := Setup(x1, y1, x2, y2);
        LineLoop(s, x1, y1, s.num, val);
    }

    /** drawLine's loop: plots numpixels + 1 pixels from (x, y) with numerator num. */
    method LineLoop(s: LineSetup, x0: int, y0: int, num0: int, val: uint8)
      requires disp.Valid() && SetupShape(s) && Abs(x0) <= 256 && Abs(y0) <= 256
      requires 0 <= num0 && (s.den > 0 ==> num0 < s.den)
      requires AllFit(disp.displayBuffers.Length, LineFrom(s, x0, y0, num0, 0, val))
      modifies disp, disp.displayBuffers, disp.ShadowFrame()
      ensures disp.Live() == ApplyPlots(old(disp.Live()), LineFrom(s, x0, y0, num0, 0, val))
      ensures disp.Shadow() == old(disp.Shadow()) && disp.wire == old(disp.wire)
    {
      var x, y, num := x0, y0, num0;
      ghost var target := ApplyPlots(disp.Live(), LineFrom(s, x, y, num, 0, val));
      var curpixel := 0;
      while curpixel <= s.numpixels
        invariant 0 <= curpixel <= s.numpixels + 1
        invariant Abs(x) <= 256 + curpixel && Abs(y) <= 256 + curpixel
        invariant 0 <= num && (s.den > 0 ==> num < s.den)
        invariant disp.Valid()
        invariant AllFit(disp.displayBuffers.Length, LineFrom(s, x, y, num, curpixel, val))
        invariant ApplyPlots(disp.Live(), LineFrom(s, x, y, num, curpixel, val)) == target
        invariant disp.Shadow() == old(disp.Shadow()) && disp.wire == old(disp.wire)
        decreases s.numpixels + 1 - curpixel
      {
        x, y, num := LineBody(s, x, y, num, curpixel, val);
        curpixel := curpixel + 1;
      }
      assert LineFrom(s, x, y, num, curpixel, val) == [];
    }

    /**
     * One pass of drawLine's loop body: plot (x, y), add numadd to the
     * numerator, take the minor step when it reaches den, then the major step.
     */
    method LineBody(s: LineSetup, x: int, y: int, num: int, ghost cur: int, val: uint8) returns (x': int, y': int, num': int)
      requires disp.Valid() && SetupShape(s) && 0 <= cur <= s.numpixels
      requires Abs(x) <= 256 + cur && Abs(y) <= 256 + cur && 0 <= num && (s.den > 0 ==> num < s.den)
      requires AllFit(disp.displayBuffers.Length, LineFrom(s, x, y, num, cur, val))
      modifies disp, disp.displayBuffers, disp.ShadowFrame()
      ensures disp.Valid() && disp.Shadow() == old(disp.Shadow()) && disp.wire == old(disp.wire)
      ensures Abs(x') <= 256 + cur + 1 && Abs(y') <= 256 + cur + 1 && 0 <= num' && (s.den > 0 ==> num' < s.den)
      ensures LineFrom(s, x', y', num', cur + 1, val) == LineFrom(s, x, y, num, cur, val)[1..]
      ensures AllFit(disp.displayBuffers.Length, LineFrom(s, x', y', num', cur + 1, val))
      ensures ApplyPlots(disp.Live(), LineFrom(s, x', y', num', cur + 1, val)) ==
        ApplyPlots(old(disp.Live()), LineFrom(s, x, y, num, cur, val))
    {
      ghost var rest := LineFrom(s, x, y, num, cur, val);
      LineFromUnfold(s, x, y, num, cur, val);
      ApplyPlotsCons(disp.Live(), rest);
      SetPixel(x, y, val, false, true);
      x', y', num' := x, y, num + s.numadd;
      if num' >= s.den {
        num' := num' - s.den;
        x' := x' + s.xinc1;
        y' := y' + s.yinc1;
      }
      x' := x' + s.xinc2;
      y' := y' + s.yinc2;
      LineFromNext(s, x, y, num, cur, val, x', y', num');
    }

    /**
     * drawCircle(xp, yp, radius, col): the midpoint loop, eight unpainted
     * setPixel calls per pass.
     */
    method DrawCircle(xp: uint8, yp: uint8, radius: uint8, col: uint8)
      requires disp.Valid() && radius != 127
      requires AllFit(disp.displayBuffers.Length, CirclePlots(xp, yp, radius, col))
      modifies disp, disp.displayBuffers, disp.ShadowFrame()
      ensures disp.Live() == ApplyPlots(old(disp.Live()), CirclePlots(xp, yp, radius, col))
      ensures disp.Shadow() == old(disp.Shadow()) && disp.wire == old(disp.wire)
    {
      var balance: int8, xoff: int8, yoff: int8 := 0, 0, 0;
      Int8OfByte(radius);
      xoff := 0;
      yoff := Int8(radius);
      balance := Int8(0 - radius as int);
      ghost var target := ApplyPlots(old(disp.Live()), CirclePlots(xp, yp, radius, col));
      while xoff <= yoff
        invariant 0 <= xoff && yoff <= 126
        invariant disp.Valid()
        invariant AllFit(disp.displayBuffers.Length, CircleFrom(xp, yp, col, balance, xoff, yoff))
        invariant ApplyPlots(disp.Live(), CircleFrom(xp, yp, col, balance, xoff, yoff)) == target
        invariant disp.Shadow() == old(disp.Shadow()) && disp.wire == old(disp.wire)
        decreases yoff - xoff + 1
      {
        ghost var o := Octants(xp, yp, xoff, yoff, col);
        ghost var rest := CircleFrom(xp, yp, col, balance, xoff, yoff);
        ghost var live := disp.Live();
        ghost var b0, x0, y0 := balance, xoff, yoff;
        CircleFromUnfold(xp, yp, col, balance, xoff, yoff);
        AllFitSplit(|live|, o, rest[8..]);
        ApplyPlotsAppend(live, o, rest[8..]);
        balance, xoff, yoff := CircleBody(xp, yp, col, balance, xoff, yoff);
        CircleFromNext(xp, yp, col, b0, x0, y0, balance, xoff, yoff);
      }
    }

    /**
     * One pass of drawCircle's loop body: the eight plots, then
     * `balance += xoff++ + xoff` read left to right and, when balance is not
     * negative, `balance -= --yoff + yoff`.
     */
    method CircleBody(xp: uint8, yp: uint8, col: uint8, balance: int8, xoff: int8, yoff: int8)
      returns (balance': int8, xoff': int8, yoff': int8)
      requires disp.Valid() && 0 <= xoff <= yoff <= 126
      requires AllFit(disp.displayBuffers.Length, Octants(xp, yp, xoff, yoff, col))
      modifies disp, disp.displayBuffers, disp.ShadowFrame()
      ensures disp.Live() == ApplyPlots(old(disp.Live()), Octants(xp, yp, xoff, yoff, col))
      ensures disp.Shadow() == old(disp.Shadow()) && disp.wire == old(disp.wire)
      ensures var b1 := Int8(balance + xoff + (xoff + 1));
        xoff' == xoff + 1 &&
        (b1 >= 0 ==> yoff' == yoff - 1 && balance' == Int8(b1 - 2 * (yoff - 1))) &&
        (b1 < 0 ==> yoff' == yoff && balance' == b1)
    {
      PlotOctants(xp, yp, xoff, yoff, col);
      balance', xoff', yoff' := balance, xoff, yoff;
      var before := xoff';
      xoff' := xoff' + 1;
      balance' := Int8(balance' + before + xoff');
      if balance' >= 0 {
        yoff' := yoff' - 1;
        balance' := Int8(balance' - (yoff' + yoff'));
      }
    }

    /**
     * The eight setPixel calls of one pass of drawCircle's loop, made in the
     * order Octants lists them.
     */
    method PlotOctants(xp: uint8, yp: uint8, xoff: int8, yoff: int8, col: uint8)
      requires disp.Valid() && AllFit(disp.displayBuffers.Length, Octants(xp, yp, xoff, yoff, col))
      modifies disp, disp.displayBuffers, disp.ShadowFrame()
      ensures disp.Live() == ApplyPlots(old(disp.Live()), Octants(xp, yp, xoff, yoff, col))
      ensures disp.Shadow() == old(disp.Shadow()) && disp.wire == old(disp.wire)
    {
      var o := Octants(xp, yp, xoff, yoff, col);
      ghost var target := ApplyPlots(disp.Live(), o);
      for k := 0 to 8
        invariant AllFit(disp.displayBuffers.Length, o[k..])
        invariant ApplyPlots(disp.Live(), o[k..]) == target
        invariant disp.Shadow() == old(disp.Shadow()) && disp.wire == old(disp.wire)
      {
        ApplyPlotsCons(disp.Live(), o[k..]);
        assert o[k..][0] == o[k] && o[k..][1..] == o[k + 1..];
        SetPixel(o[k].x, o[k].y, o[k].val, false, true);
      }
      assert o[8..] == [];
    }

    /**
     * drawRectangle(x, y, width, height, colour, filled): the left, right,
     * top and bottom edges as four drawLine calls; `filled` is never read.
     */
    method DrawRectangle(x: uint8, y: uint8, width: uint8, height: uint8, colour: uint8, filled: bool)
      requires disp.Valid() && RectInRange(x, y, width, height)
      requires AllFit(disp.displayBuffers.Length, RectPlots(x, y, width, height, colour))
      modifies disp, disp.displayBuffers, disp.ShadowFrame()
      ensures disp.Live() == ApplyPlots(old(disp.Live()), RectPlots(x, y, width, height, colour))
      ensures disp.Shadow() == old(disp.Shadow()) && disp.wire == old(disp.wire)
    {
      var x2, y2 := (x + width) % 256, (y + height) % 256;
      ghost var a, b := LinePlots(x, y, x, y2, colour), LinePlots(x2, y, x2, y2, colour);
      ghost var c, d := LinePlots(x, y, x2, y, colour), LinePlots(x, y2, x2, y2, colour);
      ghost var buf := old(disp.Live());
      assert RectPlots(x, y, width, height, colour) == a + b + c + d;
      AllFitSplit(|buf|, a + b + c, d);
      AllFitSplit(|buf|, a + b, c);
      AllFitSplit(|buf|, a, b);
      ApplyPlotsAppend(buf, a + b + c, d);
      ApplyPlotsAppend(buf, a + b, c);
      ApplyPlotsAppend(buf, a, b);
      DrawLine(x, y, x, y2, colour);
      DrawLine(x2, y, x2, y2, colour);
      DrawLine(x, y, x2, y, colour);
      DrawLine(x, y2, x2, y2, colour);
    }

    /** setBrightness(pwm): the per-display setBrightness for displays 0 .. count-1 in order. */
    method SetBrightness(pwmValue: Byte)
      requires disp.Valid()
      modifies disp
      ensures disp.wire == old(disp.wire) + BrightnessAll(disp.codes, pwmValue, disp.displayCount)
    {
      var dispNum := 0;
      while dispNum < disp.GetDisplayCount()
        invariant 0 <= dispNum <= disp.displayCount
        invariant disp.wire == old(disp.wire) + BrightnessAll(disp.codes, pwmValue, dispNum)
      {
        BrightnessAllStep(old(disp.wire), disp.codes, pwmValue, dispNum);
        disp.SetBrightness(dispNum, pwmValue);
        dispNum := dispNum + 1;
      }
    }
  }
}
