/**
 * The logic of the RollingDemo sketch: one generation of Conway's Game of
 * Life read from the shadow framebuffer and written to the live one, and
 * 5x7 text drawn from a font through toolbox setPixel calls.  The demo's
 * delays, random numbers and main loop are not modelled.
 *
 * The demo runs on the live and shadow buffers of one MatrixDisplay through
 * a DisplayToolbox.  getPixel reads the shadow at the doubled offset, and
 * for the rightmost column of a chain it reads past the end of the shadow
 * buffer.  The model makes those reads explicit: a read goes to the 256-byte
 * window `shadow + beyond`, where `beyond` is the memory after the shadow
 * buffer, given as a parameter.
 */
module RollingDemo {
  import opened Wrappers
  import opened Wire
  import opened Framebuffer
  import opened Ht1632
  import opened MatrixDriver
  import opened Toolbox

  // ---------------------------------------------------------------------------
  // The Life rule

  /** Conway's rule B3/S23: a live cell survives with 2 or 3 live neighbours, a dead one is born with 3. */
  predicate ConwayNext(alive: bool, neighbours: nat)
  {
    if alive then neighbours == 2 || neighbours == 3 else neighbours == 3
  }

  /**
   * The demo's switch on the neighbour count: 0 or 1 give 0, 2 keeps the
   * cell's shadow value, 3 gives 1, anything else 0.  For a cell that
   * reads 0 or 1 this is Conway's rule.
   */
  function LifeRule(neighbours: nat, centre: uint8): (r: uint8)
    ensures centre <= 1 ==> r <= 1 && (r == 1 <==> ConwayNext(centre == 1, neighbours))
  {
    match neighbours
    case 0 => 0
    case 1 => 0
    case 2 => centre
    case 3 => 1
    case _ => 0
  }

  // ---------------------------------------------------------------------------
  // Reading the shadow

  /** The 256 bytes a uint8_t offset from the start of the shadow buffer can reach. */
  predicate Window(ext: seq<Byte>)
  {
    |ext| == 256
  }

  /**
   * toolbox.getPixel(x, y, true) read from the window: the bit CalcBit(y) of
   * the byte at the driver's (doubled) read offset for display calcDispNum(x).
   * For a column of display 0 that is simply the bit of byte x.
   */
  function ShadowRead(ext: seq<Byte>, x: int16, y: uint8): (r: uint8)
    requires Window(ext) && y < 23
    ensures r <= 1
    ensures 0 <= x < BackBufferSize ==> (r == 1 <==> ReadBit(ext, x, y))
  {
    GetPixelAsWritten(ext, XDisplay(x), XColumn(x), y)
  }

  /** The eight neighbour reads of the demo, in its order, summed. */
  function Neighbours(ext: seq<Byte>, x: uint8, y: uint8): (n: nat)
    requires Window(ext) && 1 <= y <= 21
    ensures n <= 8
  {
    ShadowRead(ext, x, y + 1) + ShadowRead(ext, x, y - 1) +
    ShadowRead(ext, x + 1, y) + ShadowRead(ext, x + 1, y + 1) + ShadowRead(ext, x + 1, y - 1) +
    ShadowRead(ext, x - 1, y) + ShadowRead(ext, x - 1, y + 1) + ShadowRead(ext, x - 1, y - 1)
  }

  /** The value the demo writes for cell (x, y). */
  function NewValue(ext: seq<Byte>, x: uint8, y: uint8): (r: uint8)
    requires Window(ext) && 1 <= y <= 21
    ensures r <= 1
  {
    LifeRule(Neighbours(ext, x, y), ShadowRead(ext, x, y))
  }

  // ---------------------------------------------------------------------------
  // The reference: Life on the pixels of display 0

  /** Whether cell (x, y) of display 0 is on: bit y of column byte x; 0 outside the display. */
  function Cell(buf: seq<Byte>, x: int, y: int): nat
    requires |buf| >= BackBufferSize
  {
    if 0 <= x < BackBufferSize && 0 <= y < 8 && BitAt(buf[x], y) then 1 else 0
  }

  /** The live cells around (x, y), counted row by row. */
  function LiveNeighbours(buf: seq<Byte>, x: int, y: int): nat
    requires |buf| >= BackBufferSize
  {
    Cell(buf, x - 1, y - 1) + Cell(buf, x, y - 1) + Cell(buf, x + 1, y - 1) +
    Cell(buf, x - 1, y) + Cell(buf, x + 1, y) +
    Cell(buf, x - 1, y + 1) + Cell(buf, x, y + 1) + Cell(buf, x + 1, y + 1)
  }

  /** A read of a column of display 0 in the window is the pixel of the shadow buffer. */
  lemma ReadIsCell(shadow: seq<Byte>, beyond: seq<Byte>, x: int, y: int)
    requires BackBufferSize <= |shadow| && Window(shadow + beyond)
    requires 0 <= x < BackBufferSize && 0 <= y < 8
    ensures ShadowRead(shadow + beyond, x, y) == Cell(shadow, x, y)
  {
    assert (shadow + beyond)[x] == shadow[x];
    assert CalcBit(y) == BitMask(y);
  }

  /** Away from the edges of display 0 the eight reads are the eight neighbouring pixels. */
  lemma NeighboursAreCells(shadow: seq<Byte>, beyond: seq<Byte>, x: uint8, y: uint8)
    requires BackBufferSize <= |shadow| && Window(shadow + beyond)
    requires 1 <= x <= 30 && 1 <= y <= 6
    ensures Neighbours(shadow + beyond, x, y) == LiveNeighbours(shadow, x, y)
  {
    ReadIsCell(shadow, beyond, x, y + 1);
    ReadIsCell(shadow, beyond, x, y - 1);
    ReadIsCell(shadow, beyond, x + 1, y);
    ReadIsCell(shadow, beyond, x + 1, y + 1);
    ReadIsCell(shadow, beyond, x + 1, y - 1);
    ReadIsCell(shadow, beyond, x - 1, y);
    ReadIsCell(shadow, beyond, x - 1, y + 1);
    ReadIsCell(shadow, beyond, x - 1, y - 1);
  }

  /**
   * Away from the edges of display 0 (1 <= x <= 30, 1 <= y <= 6) the value
   * the demo computes is Conway's next state of the cell in the shadow image.
   */
  lemma InteriorIsConway(shadow: seq<Byte>, beyond: seq<Byte>, x: uint8, y: uint8)
    requires BackBufferSize <= |shadow| && Window(shadow + beyond)
    requires 1 <= x <= 30 && 1 <= y <= 6
    ensures NewValue(shadow + beyond, x, y) == 1 <==> ConwayNext(Cell(shadow, x, y) == 1, LiveNeighbours(shadow, x, y))
  {
    NeighboursAreCells(shadow, beyond, x, y);
    ReadIsCell(shadow, beyond, x, y);
  }

  /**
   * The reads at the edge: the row below row 7 is row 8, which CalcBit folds
   * onto row 0; and on a single display, column 32 is display 1 to
   * calcDispNum, read through the doubled offset at byte 64, which lies past
   * the 32-byte shadow buffer.
   */
  lemma EdgeReads(shadow: seq<Byte>, beyond: seq<Byte>, x: int16, y: uint8)
    requires Window(shadow + beyond) && 0 <= y < 8
    ensures ShadowRead(shadow + beyond, x, 8) == ShadowRead(shadow + beyond, x, 0)
    ensures |shadow| == BackBufferSize ==>
      (ShadowRead(shadow + beyond, 32, y) == 1 <==> beyond[32] & CalcBit(y) != 0)
  {
    if |shadow| == BackBufferSize {
      GetPixelReadAddress(32);
      assert (shadow + beyond)[64] == beyond[32];
    }
  }

  // ---------------------------------------------------------------------------
  // One generation

  /** A uint8_t conversion that changes nothing. */
  lemma SmallMod(v: int)
    requires 0 <= v < 256
    ensures v % 256 == v
  {}

  /** X_MAX = count * (width - 1) + 1: the first column a generation leaves alone. */
  function XMax(count: nat): (r: uint8)
    requires 1 <= count <= 4
    ensures BackBufferSize * (count - 1) < r <= BackBufferSize * count
    ensures count == 1 ==> r == BackBufferSize
  {
    count * (BackBufferSize - 1) + 1
  }

  /**
   * The toolbox setPixel calls of one generation, x outer, y inner, with
   * Y_MAX = 8 (the display height): call k writes cell (1 + k / 7, 1 + k % 7).
   */
  function LifePlots(ext: seq<Byte>, xMax: uint8): (ps: seq<Plot>)
    requires Window(ext) && xMax >= 1
    ensures |ps| == 7 * (xMax - 1)
  {
    seq(7 * (xMax - 1), k requires 0 <= k < 7 * (xMax - 1) =>
      var x, y := 1 + k / 7, 1 + k % 7;
      Plot(x, y, NewValue(ext, x, y)))
  }

  /** Call 7 (x - 1) + (y - 1) of a generation is the write of cell (x, y). */
  lemma LifePlotAt(ext: seq<Byte>, xMax: uint8, x: uint8, y: uint8)
    requires Window(ext) && 1 <= x < xMax && 1 <= y < 8
    ensures 7 * (x - 1) + (y - 1) < |LifePlots(ext, xMax)|
    ensures LifePlots(ext, xMax)[7 * (x - 1) + (y - 1)] == Plot(x, y, NewValue(ext, x, y))
  {
    var k := 7 * (x - 1) + (y - 1);
    RasterIndex(x - 1, y - 1);
    assert k / 7 == x - 1 && k % 7 == y - 1;
  }

  /** The order of a generation's calls: call k writes cell (1 + k / 7, 1 + k % 7). */
  predicate Raster(ps: seq<Plot>, xMax: int)
  {
    |ps| == 7 * (xMax - 1) && forall k | 0 <= k < |ps| :: ps[k].x == 1 + k / 7 && ps[k].y == 1 + k % 7
  }

  lemma LifePlotsRaster(ext: seq<Byte>, xMax: uint8)
    requires Window(ext) && xMax >= 1
    ensures Raster(LifePlots(ext, xMax), xMax)
  {}

  /** Every call in that order writes a cell with 1 <= x < X_MAX and 1 <= y < 8, to column byte x. */
  lemma RasterInside(ps: seq<Plot>, xMax: uint8, size: nat, m: nat)
    requires Raster(ps, xMax) && 1 <= xMax <= size && m < |ps|
    ensures 1 <= ps[m].x < xMax && 1 <= ps[m].y < 8
    ensures PlotAddress(ps[m]) == ps[m].x && PlotRow(ps[m]) == ps[m].y && Fits(size, ps[m])
    ensures m == 7 * (ps[m].x - 1) + (ps[m].y - 1)
  {
    var p := ps[m];
    var q, r := m / 7, m % 7;
    assert m == 7 * q + r && 0 <= r < 7;
    assert p.x == 1 + q && p.y == 1 + r;
    SmallMod(p.x);
    SmallMod(p.y);
  }

  /** The calls all land inside a buffer of `size` bytes when X_MAX <= size. */
  lemma RasterFit(ps: seq<Plot>, xMax: uint8, size: nat)
    requires Raster(ps, xMax) && 1 <= xMax <= size
    ensures AllFit(size, ps)
  {
    forall p <- ps ensures Fits(size, p) {
      var m :| 0 <= m < |ps| && ps[m] == p;
      RasterInside(ps, xMax, size, m);
    }
  }

  /** In that order each cell is written once: cell (x, y) ends with the value of call 7 (x - 1) + (y - 1). */
  lemma RasterWrites(buf: seq<Byte>, ps: seq<Plot>, xMax: uint8, x: int, y: int)
    requires Raster(ps, xMax) && 1 <= xMax <= |buf| && 1 <= x < xMax && 1 <= y < 8
    ensures AllFit(|buf|, ps) && 7 * (x - 1) + (y - 1) < |ps|
    ensures BitAt(ApplyPlots(buf, ps)[x], y) == PlotOn(ps[7 * (x - 1) + (y - 1)])
  {
    RasterFit(ps, xMax, |buf|);
    var k := 7 * (x - 1) + (y - 1);
    RasterInside(ps, xMax, |buf|, k);
    assert ps[k].x == x && ps[k].y == y by {
      RasterIndex(x - 1, y - 1);
    }
    forall m | 0 <= m < |ps| && m != k ensures !Hits(ps[m], x, y) {
      RasterMisses(ps, xMax, |buf|, k, m);
    }
    ApplyPlotsBit(buf, ps, x, y);
    FinalBitOnly(BitAt(buf[x], y), ps, x, y, k);
  }

  /** A call other than call k writes a different cell. */
  lemma RasterMisses(ps: seq<Plot>, xMax: uint8, size: nat, k: nat, m: nat)
    requires Raster(ps, xMax) && 1 <= xMax <= size && k < |ps| && m < |ps| && m != k
    ensures !Hits(ps[m], ps[k].x, ps[k].y)
  {
    RasterInside(ps, xMax, size, m);
    RasterInside(ps, xMax, size, k);
  }

  /** After a generation, cell (x, y) of the rewritten area holds the value the demo computed for it. */
  lemma LifeCellWritten(buf: seq<Byte>, ext: seq<Byte>, count: nat, x: uint8, y: uint8)
    requires Window(ext) && 1 <= count <= 4 && |buf| == BackBufferSize * count
    requires 1 <= x < XMax(count) && 1 <= y < 8
    ensures AllFit(|buf|, LifePlots(ext, XMax(count)))
    ensures BitAt(ApplyPlots(buf, LifePlots(ext, XMax(count)))[x], y) == (NewValue(ext, x, y) == 1)
  {
    var xMax := XMax(count);
    LifePlotsRaster(ext, xMax);
    RasterWrites(buf, LifePlots(ext, xMax), xMax, x, y);
    LifePlotAt(ext, xMax, x, y);
    SmallMod(NewValue(ext, x, y));
  }

  /**
   * A generation leaves row 0, column 0 and the columns from X_MAX on as
   * they were: every bit of those is unchanged.
   */
  lemma LifeKeepsBorder(buf: seq<Byte>, ext: seq<Byte>, count: nat, i: nat, j: nat)
    requires Window(ext) && 1 <= count <= 4 && |buf| == BackBufferSize * count
    requires i < |buf| && j < 8 && (i == 0 || j == 0 || i >= XMax(count))
    ensures AllFit(|buf|, LifePlots(ext, XMax(count)))
    ensures BitAt(ApplyPlots(buf, LifePlots(ext, XMax(count)))[i], j) == BitAt(buf[i], j)
  {
    var xMax := XMax(count);
    var ps := LifePlots(ext, xMax);
    LifePlotsRaster(ext, xMax);
    RasterFit(ps, xMax, |buf|);
    forall p <- ps ensures !Hits(p, i, j) {
      var m :| 0 <= m < |ps| && ps[m] == p;
      RasterInside(ps, xMax, |buf|, m);
    }
    PlotsKeepOthers(buf, ps, i, j);
  }

  /**
   * Inside display 0, away from its edges, a generation writes Conway's next
   * state of the shadow image into the live buffer.
   */
  lemma GenerationIsConway(buf: seq<Byte>, shadow: seq<Byte>, beyond: seq<Byte>, count: nat, x: uint8, y: uint8)
    requires 1 <= count <= 4 && |buf| == BackBufferSize * count == |shadow| && Window(shadow + beyond)
    requires 1 <= x <= 30 && 1 <= y <= 6
    ensures AllFit(|buf|, LifePlots(shadow + beyond, XMax(count)))
    ensures BitAt(ApplyPlots(buf, LifePlots(shadow + beyond, XMax(count)))[x], y) ==
      ConwayNext(Cell(shadow, x, y) == 1, LiveNeighbours(shadow, x, y))
  {
    LifeCellWritten(buf, shadow + beyond, count, x, y);
    InteriorIsConway(shadow, beyond, x, y);
  }

  /**
   * toolbox.getPixel(x, y, true): the shadow byte at the read offset, or,
   * when the offset lies past the shadow buffer, the memory after it.
   */
  method ReadShadow(tb: DisplayToolbox, beyond: seq<Byte>, x: int16, y: uint8) returns (r: uint8)
    requires tb.disp.Valid() && tb.disp.shadowBuffers.Some?
    requires tb.disp.displayBuffers.Length + |beyond| == 256 && y < 23
    ensures r == ShadowRead(tb.disp.Shadow().value + beyond, x, y)
  {
    var a := ReadAddress(XDisplay(x), XColumn(x));
    var size := tb.disp.displayBuffers.Length;
    ghost var shadow := tb.disp.Shadow().value;
    WindowRead(shadow, beyond, x, y);
    SmallMod(y);
    if a < size {
      r := tb.GetPixel(x, y, true);
      assert shadow == tb.disp.View(true);
    } else {
      r := if beyond[a - size] & CalcBit(y) != 0 then 1 else 0;
    }
  }

  /** A read through the window lands in the shadow buffer or, past its end, in the bytes beyond it. */
  lemma WindowRead(shadow: seq<Byte>, beyond: seq<Byte>, x: int16, y: uint8)
    requires |shadow| + |beyond| == 256 && y < 23
    ensures var a := ReadAddress(XDisplay(x), XColumn(x));
      (a < |shadow| ==> (ShadowRead(shadow + beyond, x, y) == 1 <==> ReadBit(shadow, a, y))) &&
      (a >= |shadow| ==> (ShadowRead(shadow + beyond, x, y) == 1 <==> beyond[a - |shadow|] & CalcBit(y) != 0))
  {
    var a := ReadAddress(XDisplay(x), XColumn(x));
    var ext := shadow + beyond;
    if a < |shadow| {
      assert ext[a] == shadow[a];
    } else {
      assert ext[a] == beyond[a - |shadow|];
    }
  }


  /** The eight neighbour reads of one cell, in the demo's order, summed. */
  method ReadNeighbours(tb: DisplayToolbox, beyond: seq<Byte>, x: uint8, y: uint8) returns (n: int)
    requires tb.disp.Valid() && tb.disp.shadowBuffers.Some?
    requires tb.disp.displayBuffers.Length + |beyond| == 256 && 1 <= y < 8
    ensures n == Neighbours(tb.disp.Shadow().value + beyond, x, y)
  {
    var n0 := ReadShadow(tb, beyond, x, y + 1);
    var n1 := ReadShadow(tb, beyond, x, y - 1);
    var n2 := ReadShadow(tb, beyond, x + 1, y);
    var n3 := ReadShadow(tb, beyond, x + 1, y + 1);
    var n4 := ReadShadow(tb, beyond, x + 1, y - 1);
    var n5 := ReadShadow(tb, beyond, x - 1, y);
    var n6 := ReadShadow(tb, beyond, x - 1, y + 1);
    var n7 := ReadShadow(tb, beyond, x - 1, y - 1);
    n := n0 + n1 + n2 + n3 + n4 + n5 + n6 + n7;
  }

  /** One cell of a generation: eight shadow reads, the rule, one unpainted live-buffer write. */
  method LifeCell(tb: DisplayToolbox, beyond: seq<Byte>, x: uint8, y: uint8)
    requires tb.disp.Valid() && tb.disp.shadowBuffers.Some?
    requires tb.disp.displayBuffers.Length + |beyond| == 256 && 1 <= y < 8
    requires Fits(tb.disp.displayBuffers.Length, Plot(x, y, NewValue(tb.disp.Shadow().value + beyond, x, y)))
    modifies tb.disp, tb.disp.displayBuffers, tb.disp.ShadowFrame()
    ensures tb.disp.Shadow() == old(tb.disp.Shadow()) && tb.disp.wire == old(tb.disp.wire)
    ensures tb.disp.Live() == ApplyPlot(old(tb.disp.Live()), Plot(x, y, NewValue(tb.disp.Shadow().value + beyond, x, y)))
  {
    ghost var ext := tb.disp.Shadow().value + beyond;
    var neighbours := ReadNeighbours(tb, beyond, x, y);
    var newval: uint8;
    match neighbours {
      case 0 => newval := 0;
      case 1 => newval := 0;
      case 2 => newval := ReadShadow(tb, beyond, x, y);
      case 3 => newval := 1;
      case _ => newval := 0;
    }
    assert newval == NewValue(ext, x, y);
    tb.SetPixel(x, y, newval, false, true);
    assert tb.disp.Shadow().value + beyond == ext;
  }

  /**
   * The two loops of one generation: every cell with 1 <= x < X_MAX and
   * 1 <= y < Y_MAX gets the rule's value, reading only the shadow and
   * writing only the live buffer.
   */
  method LifeGeneration(tb: DisplayToolbox, beyond: seq<Byte>)
    requires tb.disp.Valid() && tb.disp.shadowBuffers.Some?
    requires tb.disp.displayBuffers.Length + |beyond| == 256
    modifies tb.disp, tb.disp.displayBuffers, tb.disp.ShadowFrame()
    ensures tb.disp.Shadow() == old(tb.disp.Shadow()) && tb.disp.wire == old(tb.disp.wire)
    ensures AllFit(|old(tb.disp.Live())|, LifePlots(tb.disp.Shadow().value + beyond, XMax(tb.disp.displayCount))) &&
      tb.disp.Live() == ApplyPlots(old(tb.disp.Live()), LifePlots(tb.disp.Shadow().value + beyond, XMax(tb.disp.displayCount)))
  {
    ghost var ext := tb.disp.Shadow().value + beyond;
    ghost var live0 := tb.disp.Live();
    var count, width := tb.disp.GetDisplayCount(), tb.disp.GetDisplayWidth();
    var xMax: uint8 := count * (width - 1) + 1;
    var yMax := tb.disp.GetDisplayHeight();
    assert xMax == XMax(tb.disp.displayCount) <= |live0|;
    LifeColumns(tb, beyond, xMax, yMax, ext);
  }

  /** The column loop of one generation, for columns 1 up to xMax - 1. */
  method LifeColumns(tb: DisplayToolbox, beyond: seq<Byte>, xMax: uint8, yMax: uint8, ghost ext: seq<Byte>)
    requires tb.disp.Valid() && tb.disp.shadowBuffers.Some?
    requires tb.disp.displayBuffers.Length + |beyond| == 256
    requires ext == tb.disp.Shadow().value + beyond
    requires 1 <= xMax as int <= tb.disp.displayBuffers.Length && yMax == 8
    modifies tb.disp, tb.disp.displayBuffers, tb.disp.ShadowFrame()
    ensures tb.disp.Shadow() == old(tb.disp.Shadow()) && tb.disp.wire == old(tb.disp.wire)
    ensures AllFit(|old(tb.disp.Live())|, LifePlots(ext, xMax)) &&
      tb.disp.Live() == ApplyPlots(old(tb.disp.Live()), LifePlots(ext, xMax))
  {
    ghost var live0 := tb.disp.Live();
    var x: uint8 := 1;
    while x < xMax
      invariant 1 <= x <= xMax
      invariant tb.disp.Shadow() == old(tb.disp.Shadow()) && tb.disp.wire == old(tb.disp.wire)
      invariant AllFit(|live0|, LifePlots(ext, x)) && tb.disp.Live() == ApplyPlots(live0, LifePlots(ext, x))
    {
      LifeStep(tb, beyond, x, yMax, live0, ext);
      x := x + 1;
    }
  }

  /** One pass of the generation's column loop, as the loop invariant sees it. */
  method LifeStep(tb: DisplayToolbox, beyond: seq<Byte>, x: uint8, yMax: uint8, ghost live0: seq<Byte>, ghost ext: seq<Byte>)
    requires tb.disp.Valid() && tb.disp.shadowBuffers.Some?
    requires tb.disp.displayBuffers.Length + |beyond| == 256 && yMax == 8
    requires ext == tb.disp.Shadow().value + beyond && 1 <= x < |live0| == tb.disp.displayBuffers.Length
    requires AllFit(|live0|, LifePlots(ext, x)) && tb.disp.Live() == ApplyPlots(live0, LifePlots(ext, x))
    modifies tb.disp, tb.disp.displayBuffers, tb.disp.ShadowFrame()
    ensures tb.disp.Shadow() == old(tb.disp.Shadow()) && tb.disp.wire == old(tb.disp.wire)
    ensures AllFit(|live0|, LifePlots(ext, x + 1)) && tb.disp.Live() == ApplyPlots(live0, LifePlots(ext, x + 1))
  {
    LifePlotsExtend(live0, ext, x);
    LifeColumn(tb, beyond, x, yMax);
  }

  /** The generation up to column x + 1 is the one up to x followed by column x. */
  lemma LifePlotsExtend(buf: seq<Byte>, ext: seq<Byte>, x: uint8)
    requires Window(ext) && 1 <= x < |buf| <= 128
    ensures AllFit(|buf|, LifePlots(ext, x)) && AllFit(|buf|, ColumnPlots(ext, x))
    ensures AllFit(|buf|, LifePlots(ext, x + 1))
    ensures ApplyPlots(buf, LifePlots(ext, x + 1)) == ApplyPlots(ApplyPlots(buf, LifePlots(ext, x)), ColumnPlots(ext, x))
  {
    LifePlotsStep(ext, x);
    LifePlotsRaster(ext, x + 1);
    RasterFit(LifePlots(ext, x + 1), x + 1, |buf|);
    AllFitSplit(|buf|, LifePlots(ext, x), ColumnPlots(ext, x));
    ApplyPlotsAppend(buf, LifePlots(ext, x), ColumnPlots(ext, x));
  }

  /** The calls of a generation for column x: rows 1 to 7 in order. */
  function ColumnPlots(ext: seq<Byte>, x: uint8): (ps: seq<Plot>)
    requires Window(ext)
    ensures |ps| == 7
  {
    seq(7, j requires 0 <= j < 7 => Plot(x, 1 + j, NewValue(ext, x, 1 + j)))
  }

  /** The calls for the columns before x + 1 are those for the columns before x, then column x. */
  lemma LifePlotsStep(ext: seq<Byte>, x: uint8)
    requires Window(ext) && 1 <= x < 255
    ensures LifePlots(ext, x + 1) == LifePlots(ext, x) + ColumnPlots(ext, x)
  {
    var ps, a, b := LifePlots(ext, x + 1), LifePlots(ext, x), ColumnPlots(ext, x);
    forall k | 0 <= k < |ps| ensures ps[k] == (a + b)[k] {
      LifePlotsStepAt(ext, x, k);
    }
    assert ps == a + b;
  }

  lemma LifePlotsStepAt(ext: seq<Byte>, x: uint8, k: nat)
    requires Window(ext) && 1 <= x < 255 && k < 7 * x
    ensures LifePlots(ext, x + 1)[k] == (LifePlots(ext, x) + ColumnPlots(ext, x))[k]
  {
    var a := LifePlots(ext, x);
    if k < |a| {
      assert LifePlots(ext, x + 1)[k] == a[k];
    } else {
      ColumnInLife(ext, x, k - |a|);
    }
  }

  /** Call 7 (x - 1) + j of the columns before x + 1 is call j of column x. */
  lemma ColumnInLife(ext: seq<Byte>, x: uint8, j: nat)
    requires Window(ext) && 1 <= x < 255 && j < 7
    ensures LifePlots(ext, x + 1)[7 * (x - 1) + j] == ColumnPlots(ext, x)[j]
  {
    LifePlotAt(ext, x + 1, x, 1 + j);
    assert ColumnPlots(ext, x)[j] == Plot(x, 1 + j, NewValue(ext, x, 1 + j));
  }

  /** The inner loop of a generation: column x, rows 1 .. Y_MAX - 1. */
  method LifeColumn(tb: DisplayToolbox, beyond: seq<Byte>, x: uint8, yMax: uint8)
    requires tb.disp.Valid() && tb.disp.shadowBuffers.Some?
    requires tb.disp.displayBuffers.Length + |beyond| == 256 && yMax == 8
    requires AllFit(tb.disp.displayBuffers.Length, ColumnPlots(tb.disp.Shadow().value + beyond, x))
    modifies tb.disp, tb.disp.displayBuffers, tb.disp.ShadowFrame()
    ensures tb.disp.Shadow() == old(tb.disp.Shadow()) && tb.disp.wire == old(tb.disp.wire)
    ensures tb.disp.Live() == ApplyPlots(old(tb.disp.Live()), ColumnPlots(tb.disp.Shadow().value + beyond, x))
  {
    ghost var ext := tb.disp.Shadow().value + beyond;
    ghost var live0 := tb.disp.Live();
    ghost var cs := ColumnPlots(ext, x);
    var y: uint8 := 1;
    while y < yMax
      invariant 1 <= y <= yMax
      invariant tb.disp.Shadow() == old(tb.disp.Shadow()) && tb.disp.wire == old(tb.disp.wire)
      invariant tb.disp.Live() == ApplyPlots(live0, cs[..y - 1])
    {
      ApplyPlotsSnoc(live0, cs, y - 1);
      LifeCell(tb, beyond, x, y);
      y := y + 1;
    }
    assert cs[..7] == cs;
  }

  /**
   * One round of the demo's loop: a generation, syncDisplays, then
   * copyBuffer.  The shadow the next round reads is the generation just
   * drawn, and the wire carries that image.
   */
  method LifeRound(tb: DisplayToolbox, beyond: seq<Byte>)
    requires tb.disp.Valid() && tb.disp.shadowBuffers.Some?
    requires tb.disp.displayBuffers.Length + |beyond| == 256
    modifies tb.disp, tb.disp.displayBuffers, tb.disp.ShadowFrame()
    ensures AllFit(|old(tb.disp.Live())|, LifePlots(old(tb.disp.Shadow()).value + beyond, XMax(tb.disp.displayCount))) &&
      tb.disp.Live() == ApplyPlots(old(tb.disp.Live()), LifePlots(old(tb.disp.Shadow()).value + beyond, XMax(tb.disp.displayCount)))
    ensures tb.disp.Shadow() == Some(tb.disp.Live())
    ensures tb.disp.wire == old(tb.disp.wire) + SyncTrace(tb.disp.codes, tb.disp.Live(), tb.disp.displayCount)
  {
    LifeGeneration(tb, beyond);
    tb.disp.SyncDisplays();
    tb.disp.CopyBuffer();
  }

  // ---------------------------------------------------------------------------
  // Text

  predicate IsUpper(c: int) { 'A' as int <= c <= 'Z' as int }
  predicate IsLower(c: int) { 'a' as int <= c <= 'z' as int }
  predicate IsDigit(c: int) { '0' as int <= c <= '9' as int }

  /**
   * The font row drawChar looks a (signed) char up in: `c &= 0x1F` for a
   * letter (on these non-negative codes, c mod 32), `c - '0' + 27` for a
   * digit, 0 for a space, and any other char as it is.  Letters of either
   * case land on their place in the alphabet.
   */
  function GlyphIndex(c: int8): (g: int8)
    ensures IsUpper(c) ==> g == c - 'A' as int + 1
    ensures IsLower(c) ==> g == c - 'a' as int + 1
    ensures IsDigit(c) ==> g == c - '0' as int + 27
    ensures c == ' ' as int ==> g == 0
    ensures !IsUpper(c) && !IsLower(c) && !IsDigit(c) && c != ' ' as int ==> g == c
  {
    if IsUpper(c) || IsLower(c) then c % 32
    else if IsDigit(c) then c - '0' as int + 27
    else if c == ' ' as int then 0
    else c
  }

  /**
   * On letters, digits and space the lookup is one-to-one up to case: two
   * such chars share a glyph exactly when they are the same letter or the
   * same char.
   */
  lemma GlyphIndexDistinguishes(a: int8, b: int8)
    requires IsUpper(a) || IsLower(a) || IsDigit(a) || a == ' ' as int
    requires IsUpper(b) || IsLower(b) || IsDigit(b) || b == ' ' as int
    ensures 0 <= GlyphIndex(a) <= 36
    ensures GlyphIndex(a) == GlyphIndex(b) <==> a == b || (a - b == 32 && IsLower(a)) || (b - a == 32 && IsLower(b))
  {}

  /** The font has a row for c's glyph, with the five column bytes drawChar reads. */
  predicate HasGlyph(font: seq<seq<Byte>>, c: int8)
  {
    0 <= GlyphIndex(c) < |font| && |font[GlyphIndex(c)]| >= 5
  }

  /** Whether drawChar lights row `row` for column byte `dots`: `dots & (64 >> row)`, bit 6 - row. */
  function Dot(dots: Byte, row: int): (r: int16)
    requires 0 <= row < 7
    ensures r == 0 || r == 1
    ensures r == 1 <==> BitAt(dots, 6 - row)
  {
    if dots & BitMask(6 - row) != 0 then 1 else 0
  }

  /** 64 >> row is the mask of bit 6 - row. */
  lemma ShiftedMask(row: nat)
    requires row < 7
    ensures (64 as Byte) >> row == BitMask(6 - row)
  {
    match row
    case 0 => case 1 => case 2 => case 3 => case 4 => case 5 => case _ =>
  }

  /**
   * drawChar's toolbox calls for the first n columns of a glyph: column
   * outer, row inner; call k sets (x + k / 7, y + k % 7) to the dot of row
   * k % 7 of column byte k / 7.
   */
  function GlyphPlots(glyph: seq<Byte>, x: uint8, y: uint8, n: nat): (ps: seq<Plot>)
    requires n <= 5 <= |glyph|
    ensures |ps| == 7 * n
  {
    seq(7 * n, k requires 0 <= k < 7 * n => Plot(x + k / 7, y + k % 7, Dot(glyph[k / 7], k % 7)))
  }

  /** The calls for one column byte, rows 0 to 6. */
  function DotColumn(dots: Byte, cx: int16, y: uint8): (ps: seq<Plot>)
    ensures |ps| == 7
  {
    seq(7, row requires 0 <= row < 7 => Plot(cx, y + row, Dot(dots, row)))
  }

  /** The calls of drawChar(x, y, c). */
  function CharPlots(font: seq<seq<Byte>>, x: uint8, y: uint8, c: int8): (ps: seq<Plot>)
    requires HasGlyph(font, c)
    ensures |ps| == 35
  {
    GlyphPlots(font[GlyphIndex(c)], x, y, 5)
  }

  lemma GlyphPlotsStep(glyph: seq<Byte>, x: uint8, y: uint8, n: nat)
    requires n < 5 <= |glyph|
    ensures GlyphPlots(glyph, x, y, n + 1) == GlyphPlots(glyph, x, y, n) + DotColumn(glyph[n], x + n, y)
  {
    var ps := GlyphPlots(glyph, x, y, n + 1);
    forall k | 0 <= k < 7 * (n + 1)
      ensures ps[k] == (GlyphPlots(glyph, x, y, n) + DotColumn(glyph[n], x + n, y))[k]
    {
      var q, r := k / 7, k % 7;
      assert k == 7 * q + r && 0 <= r < 7 && q <= n;
    }
  }

  /** Two offsets below 7 from the same base stay apart modulo 256, and by the same amount below 16. */
  lemma NearbyMod(a: nat, d: nat, d': nat)
    requires d < 7 && d' < 7
    ensures (a + d) % 256 == (a + d') % 256 <==> d == d'
    ensures (a + d) % 256 < 16 && (a + d') % 256 < 16 ==> (a + d') % 256 - (a + d) % 256 == d' - d
  {
    var q, q' := (a + d) / 256, (a + d') / 256;
    var r, r' := (a + d) % 256, (a + d') % 256;
    assert a + d == 256 * q + r && a + d' == 256 * q' + r';
    if r < 16 && r' < 16 {
      assert q == q';
    }
    if d != d' {
      assert q == q' ==> r != r';
      assert q != q' ==> r != r';
    }
  }

  /** Call 7 q + r of a column-major raster with seven rows is column q, row r. */
  lemma RasterIndex(q: nat, r: nat)
    requires r < 7
    ensures (7 * q + r) / 7 == q && (7 * q + r) % 7 == r
  {
    DivUnique(7 * q + r, 7, q, r);
  }

  /** The calls of a 5x7 cell at (x, y): call k for column k / 7, row k % 7. */
  predicate CellRaster(ps: seq<Plot>, x: uint8, y: uint8)
  {
    |ps| == 35 && forall k | 0 <= k < 35 :: ps[k].x == x + k / 7 && ps[k].y == y + k % 7
  }

  lemma CharPlotsRaster(font: seq<seq<Byte>>, x: uint8, y: uint8, c: int8)
    requires HasGlyph(font, c)
    ensures CellRaster(CharPlots(font, x, y, c), x, y)
  {}

  /** Only call 7 col + row of a cell touches the pixel of its column and row. */
  lemma CellMiss(ps: seq<Plot>, x: uint8, y: uint8, col: nat, row: nat, m: nat)
    requires CellRaster(ps, x, y) && col < 5 && row < 7 && m < 35 && m != 7 * col + row
    ensures !Hits(ps[m], (x + col) % 256, RowBit((y + row) % 256))
  {
    var q, r := m / 7, m % 7;
    assert m == 7 * q + r && q < 5 && r < 7;
    NearbyMod(x, col, q);
    NearbyMod(y, row, r);
  }

  /** After a cell's calls, each of its pixels on a row below 16 holds its own call's value. */
  lemma CellWrites(buf: seq<Byte>, ps: seq<Plot>, x: uint8, y: uint8, col: nat, row: nat)
    requires CellRaster(ps, x, y) && AllFit(|buf|, ps)
    requires col < 5 && row < 7 && (y + row) % 256 < 16
    ensures (x + col) % 256 < |buf|
    ensures BitAt(ApplyPlots(buf, ps)[(x + col) % 256], RowBit((y + row) % 256)) == PlotOn(ps[7 * col + row])
  {
    var i, j := (x + col) % 256, RowBit((y + row) % 256);
    var k := 7 * col + row;
    RasterIndex(col, row);
    var p := ps[k];
    assert p in ps;
    assert Hits(p, i, j);
    forall m | 0 <= m < |ps| && m != k ensures !Hits(ps[m], i, j) {
      CellMiss(ps, x, y, col, row, m);
    }
    ApplyPlotsBit(buf, ps, i, j);
    FinalBitOnly(BitAt(buf[i], j), ps, i, j, k);
  }

  /**
   * Drawing a character: each pixel (x + col, y + row) of the 5x7 cell that
   * lies on a row below 16 ends with bit 6 - row of font column byte col.
   */
  lemma CharDrawsGlyph(buf: seq<Byte>, font: seq<seq<Byte>>, x: uint8, y: uint8, c: int8, col: nat, row: nat)
    requires HasGlyph(font, c) && AllFit(|buf|, CharPlots(font, x, y, c))
    requires col < 5 && row < 7 && (y + row) % 256 < 16
    ensures (x + col) % 256 < |buf|
    ensures BitAt(ApplyPlots(buf, CharPlots(font, x, y, c))[(x + col) % 256], RowBit((y + row) % 256)) ==
      BitAt(font[GlyphIndex(c)][col], 6 - row)
  {
    CharPlotsRaster(font, x, y, c);
    CellWrites(buf, CharPlots(font, x, y, c), x, y, col, row);
    CharPlotAt(font, x, y, c, col, row);
    DotOn(font[GlyphIndex(c)][col], row);
  }

  /** The dot's value, as the driver's uint8_t, is non-zero exactly when its bit is set. */
  lemma DotOn(dots: Byte, row: nat)
    requires row < 7
    ensures Dot(dots, row) % 256 != 0 <==> BitAt(dots, 6 - row)
  {}

  /** Call 7 col + row of drawChar sets the dot of row `row` of column byte col. */
  lemma CharPlotAt(font: seq<seq<Byte>>, x: uint8, y: uint8, c: int8, col: nat, row: nat)
    requires HasGlyph(font, c) && col < 5 && row < 7
    ensures CharPlots(font, x, y, c)[7 * col + row].val == Dot(font[GlyphIndex(c)][col], row)
  {
    RasterIndex(col, row);
  }

  /** The body of drawChar's inner loop: one pixel of a glyph column, on or off. */
  method DrawDot(tb: DisplayToolbox, dots: Byte, cx: int16, y: uint8, row: nat)
    requires row < 7 && tb.disp.Valid() && Fits(tb.disp.displayBuffers.Length, Plot(cx, y + row, Dot(dots, row)))
    modifies tb.disp, tb.disp.displayBuffers, tb.disp.ShadowFrame()
    ensures tb.disp.Live() == ApplyPlot(old(tb.disp.Live()), Plot(cx, y + row, Dot(dots, row)))
    ensures tb.disp.Shadow() == old(tb.disp.Shadow()) && tb.disp.wire == old(tb.disp.wire)
  {
    ShiftedMask(row);
    if dots & (64 >> row) != 0 {
      tb.SetPixel(cx, y + row, 1, false, true);
    } else {
      tb.SetPixel(cx, y + row, 0, false, true);
    }
  }

  /** drawChar's inner loop: rows 0 .. 6 of one column byte. */
  method DrawDotColumn(tb: DisplayToolbox, dots: Byte, cx: int16, y: uint8)
    requires tb.disp.Valid() && AllFit(tb.disp.displayBuffers.Length, DotColumn(dots, cx, y))
    modifies tb.disp, tb.disp.displayBuffers, tb.disp.ShadowFrame()
    ensures tb.disp.Live() == ApplyPlots(old(tb.disp.Live()), DotColumn(dots, cx, y))
    ensures tb.disp.Shadow() == old(tb.disp.Shadow()) && tb.disp.wire == old(tb.disp.wire)
  {
    ghost var live0 := tb.disp.Live();
    ghost var ps := DotColumn(dots, cx, y);
    for row := 0 to 7
      invariant tb.disp.Live() == ApplyPlots(live0, ps[..row])
      invariant tb.disp.Shadow() == old(tb.disp.Shadow()) && tb.disp.wire == old(tb.disp.wire)
    {
      ApplyPlotsSnoc(live0, ps, row);
      assert ps[row] == Plot(cx, y + row, Dot(dots, row)) && ps[row] in ps;
      DrawDot(tb, dots, cx, y, row);
    }
    assert ps[..7] == ps;
  }

  /** drawChar(x, y, c): the glyph's five columns at x .. x + 4, seven rows each, from y down. */
  method DrawChar(tb: DisplayToolbox, font: seq<seq<Byte>>, x: uint8, y: uint8, c: int8)
    requires tb.disp.Valid() && HasGlyph(font, c)
    requires AllFit(tb.disp.displayBuffers.Length, CharPlots(font, x, y, c))
    modifies tb.disp, tb.disp.displayBuffers, tb.disp.ShadowFrame()
    ensures tb.disp.Live() == ApplyPlots(old(tb.disp.Live()), CharPlots(font, x, y, c))
    ensures tb.disp.Shadow() == old(tb.disp.Shadow()) && tb.disp.wire == old(tb.disp.wire)
  {
    ghost var live0 := tb.disp.Live();
    var g := GlyphIndex(c);
    for col := 0 to 5
      invariant AllFit(|live0|, GlyphPlots(font[g], x, y, col))
      invariant tb.disp.Live() == ApplyPlots(live0, GlyphPlots(font[g], x, y, col))
      invariant tb.disp.Shadow() == old(tb.disp.Shadow()) && tb.disp.wire == old(tb.disp.wire)
    {
      DrawCharColumn(tb, font, g, x, y, col, live0);
    }
  }

  /** One pass of drawChar's column loop: column byte col of the glyph, drawn at x + col. */
  method DrawCharColumn(tb: DisplayToolbox, font: seq<seq<Byte>>, g: int8, x: uint8, y: uint8, col: nat,
                        ghost live0: seq<Byte>)
    requires tb.disp.Valid() && 0 <= g < |font| && col < 5 <= |font[g]|
    requires AllFit(|live0|, GlyphPlots(font[g], x, y, 5)) && |live0| == tb.disp.displayBuffers.Length
    requires AllFit(|live0|, GlyphPlots(font[g], x, y, col))
    requires tb.disp.Live() == ApplyPlots(live0, GlyphPlots(font[g], x, y, col))
    modifies tb.disp, tb.disp.displayBuffers, tb.disp.ShadowFrame()
    ensures AllFit(|live0|, GlyphPlots(font[g], x, y, col + 1))
    ensures tb.disp.Live() == ApplyPlots(live0, GlyphPlots(font[g], x, y, col + 1))
    ensures tb.disp.Shadow() == old(tb.disp.Shadow()) && tb.disp.wire == old(tb.disp.wire)
  {
    ghost var glyph := font[g];
    GlyphPlotsExtend(live0, glyph, x, y, col);
    var dots := font[g][col];
    var cx: int16 := x as int + col;
    ghost var column := DotColumn(dots, cx, y);
    assert column == DotColumn(glyph[col], x + col, y);
    DrawDotColumn(tb, dots, cx, y);
  }


  /** The first n columns of a glyph are a prefix of all five. */
  lemma GlyphPlotsPrefix(glyph: seq<Byte>, x: uint8, y: uint8, n: nat)
    requires n <= 5 <= |glyph|
    ensures GlyphPlots(glyph, x, y, 5) == GlyphPlots(glyph, x, y, n) + GlyphPlots(glyph, x, y, 5)[7 * n..]
  {
    assert GlyphPlots(glyph, x, y, 5)[..7 * n] == GlyphPlots(glyph, x, y, n);
  }

  /** Drawing n + 1 columns is drawing n, then column n; all inside the buffer when the whole glyph is. */
  lemma GlyphPlotsExtend(buf: seq<Byte>, glyph: seq<Byte>, x: uint8, y: uint8, n: nat)
    requires n < 5 <= |glyph| && AllFit(|buf|, GlyphPlots(glyph, x, y, 5))
    ensures AllFit(|buf|, GlyphPlots(glyph, x, y, n)) && AllFit(|buf|, DotColumn(glyph[n], x + n, y))
    ensures AllFit(|buf|, GlyphPlots(glyph, x, y, n + 1))
    ensures ApplyPlots(buf, GlyphPlots(glyph, x, y, n + 1)) ==
      ApplyPlots(ApplyPlots(buf, GlyphPlots(glyph, x, y, n)), DotColumn(glyph[n], x + n, y))
  {
    GlyphPlotsStep(glyph, x, y, n);
    GlyphPlotsPrefix(glyph, x, y, n + 1);
    AllFitSplit(|buf|, GlyphPlots(glyph, x, y, n + 1), GlyphPlots(glyph, x, y, 5)[7 * (n + 1)..]);
    AllFitSplit(|buf|, GlyphPlots(glyph, x, y, n), DotColumn(glyph[n], x + n, y));
    ApplyPlotsAppend(buf, GlyphPlots(glyph, x, y, n), DotColumn(glyph[n], x + n, y));
  }

  /** Every char of s has a glyph in the font. */
  predicate Drawable(font: seq<seq<Byte>>, s: seq<int8>)
  {
    forall i | 0 <= i < |s| :: HasGlyph(font, s[i])
  }

  /** The column drawString puts char i at: x advanced by 6 per char, in uint8_t. */
  function CharColumn(x: uint8, i: nat): uint8
  {
    (x + 6 * i) % 256
  }

  /** The toolbox calls of drawing the chars of s one after another, 6 columns apart. */
  function StringPlots(font: seq<seq<Byte>>, x: uint8, y: uint8, s: seq<int8>): (ps: seq<Plot>)
    requires Drawable(font, s)
    ensures |ps| == 35 * |s|
    decreases |s|
  {
    if s == [] then []
    else
      var n := |s| - 1;
      assert Drawable(font, s[..n]) by {
        forall i | 0 <= i < n ensures HasGlyph(font, s[..n][i]) {
          assert s[..n][i] == s[i];
        }
      }
      StringPlots(font, x, y, s[..n]) + CharPlots(font, CharColumn(x, n), y, s[n])
  }

  /**
   * How many chars drawString draws.  Its counter is a `char`: after 127 it
   * wraps to -128, which the comparison with strlen's 16-bit size_t reads as
   * 65408, so a longer string stops after 128 chars.
   */
  function DrawnCount(s: seq<int8>): (n: nat)
    ensures n <= |s| && n <= 128
    ensures |s| <= 128 ==> n == |s|
  {
    if |s| <= 128 then |s| else 128
  }

  lemma DrawablePrefix(font: seq<seq<Byte>>, s: seq<int8>, n: nat)
    requires Drawable(font, s) && n <= |s|
    ensures Drawable(font, s[..n])
  {
    forall i | 0 <= i < n ensures HasGlyph(font, s[..n][i]) {
      assert s[..n][i] == s[i];
    }
  }

  /** The calls for the first n chars are a prefix of those for all of s. */
  lemma {:induction false} StringPlotsPrefix(font: seq<seq<Byte>>, x: uint8, y: uint8, s: seq<int8>, n: nat)
    requires Drawable(font, s) && n <= |s|
    ensures Drawable(font, s[..n])
    ensures StringPlots(font, x, y, s)[..35 * n] == StringPlots(font, x, y, s[..n])
    decreases |s|
  {
    DrawablePrefix(font, s, n);
    if n < |s| {
      var m := |s| - 1;
      DrawablePrefix(font, s, m);
      StringPlotsPrefix(font, x, y, s[..m], n);
      assert s[..m][..n] == s[..n];
    } else {
      assert s[..n] == s;
    }
  }

  /**
   * drawString's placement: the calls for char i are drawChar's calls for
   * that char at column x + 6 i (mod 256) and row y.
   */
  lemma {:induction false} StringPlotsChar(font: seq<seq<Byte>>, x: uint8, y: uint8, s: seq<int8>, i: nat)
    requires Drawable(font, s) && i < |s|
    ensures StringPlots(font, x, y, s)[35 * i..35 * i + 35] == CharPlots(font, CharColumn(x, i), y, s[i])
    decreases |s|
  {
    var m := |s| - 1;
    DrawablePrefix(font, s, m);
    var a, b := StringPlots(font, x, y, s[..m]), CharPlots(font, CharColumn(x, m), y, s[m]);
    assert StringPlots(font, x, y, s) == a + b;
    assert |a| == 35 * m && |b| == 35;
    if i < m {
      StringPlotsChar(font, x, y, s[..m], i);
      assert s[..m][i] == s[i] && 35 * i + 35 <= |a|;
      assert (a + b)[35 * i..35 * i + 35] == a[35 * i..35 * i + 35];
    } else {
      assert 35 * i == |a|;
      assert (a + b)[35 * i..35 * i + 35] == b;
    }
  }

  /** The calls for s[..n + 1] are those for s[..n], then char n's. */
  lemma StringPlotsSnoc(font: seq<seq<Byte>>, x: uint8, y: uint8, s: seq<int8>, n: nat)
    requires n < |s| && Drawable(font, s[..n + 1])
    ensures Drawable(font, s[..n])
    ensures StringPlots(font, x, y, s[..n + 1]) ==
      StringPlots(font, x, y, s[..n]) + CharPlots(font, CharColumn(x, n), y, s[n])
  {
    assert s[..n + 1][..n] == s[..n] && s[..n + 1][n] == s[n];
    DrawablePrefix(font, s[..n + 1], n);
  }

  /** A prefix of a list of plots that fits fits too. */
  lemma AllFitPrefix(size: nat, ps: seq<Plot>, k: nat)
    requires AllFit(size, ps) && k <= |ps|
    ensures AllFit(size, ps[..k])
  {
    assert ps == ps[..k] + ps[k..];
    AllFitSplit(size, ps[..k], ps[k..]);
  }

  /** When the first m chars fit, so do the first n <= m. */
  lemma StringFitsPrefix(size: nat, font: seq<seq<Byte>>, x: uint8, y: uint8, s: seq<int8>, n: nat, m: nat)
    requires n <= m <= |s| && Drawable(font, s[..m]) && AllFit(size, StringPlots(font, x, y, s[..m]))
    ensures Drawable(font, s[..n]) && AllFit(size, StringPlots(font, x, y, s[..n]))
  {
    StringPlotsPrefix(font, x, y, s[..m], n);
    assert s[..m][..n] == s[..n];
    AllFitPrefix(size, StringPlots(font, x, y, s[..m]), 35 * n);
  }

  /** One more char, inside the buffer when the first m chars are. */
  lemma StringPlotsExtend(buf: seq<Byte>, font: seq<seq<Byte>>, x: uint8, y: uint8, s: seq<int8>, n: nat, m: nat)
    requires n < m <= |s| && Drawable(font, s[..m]) && AllFit(|buf|, StringPlots(font, x, y, s[..m]))
    ensures Drawable(font, s[..n]) && Drawable(font, s[..n + 1])
    ensures AllFit(|buf|, StringPlots(font, x, y, s[..n])) && AllFit(|buf|, CharPlots(font, CharColumn(x, n), y, s[n]))
    ensures AllFit(|buf|, StringPlots(font, x, y, s[..n + 1]))
    ensures ApplyPlots(buf, StringPlots(font, x, y, s[..n + 1])) ==
      ApplyPlots(ApplyPlots(buf, StringPlots(font, x, y, s[..n])), CharPlots(font, CharColumn(x, n), y, s[n]))
  {
    StringFitsPrefix(|buf|, font, x, y, s, n + 1, m);
    StringPlotsSnoc(font, x, y, s, n);
    var a, b := StringPlots(font, x, y, s[..n]), CharPlots(font, CharColumn(x, n), y, s[n]);
    AllFitSplit(|buf|, a, b);
    ApplyPlotsAppend(buf, a, b);
  }

  /** While the string fits below column 256, x + 6 i + col needs no wrap-around. */
  lemma NoWrap(x: uint8, n: nat, i: nat, col: nat)
    requires x + 6 * n <= 256 && i < n && col < 6
    ensures x + 6 * i + col < 256
    ensures CharColumn(x, i) == x + 6 * i && (CharColumn(x, i) + col) % 256 == x + 6 * i + col
  {
    assert 6 * i + 6 <= 6 * n;
    SmallMod(x + 6 * i);
    SmallMod(x + 6 * i + col);
  }

  /** A char drawn at column cx, with its cell left of column 256, touches no column left of cx. */
  lemma CharMissesLeft(font: seq<seq<Byte>>, cx: uint8, y: uint8, c: int8, target: int, j: nat)
    requires HasGlyph(font, c) && target < cx && cx + 4 < 256
    ensures forall p <- CharPlots(font, cx, y, c) :: !Hits(p, target, j)
  {
    var ps := CharPlots(font, cx, y, c);
    CharPlotsRaster(font, cx, y, c);
    forall p <- ps ensures !Hits(p, target, j) {
      var k :| 0 <= k < 35 && ps[k] == p;
      assert cx <= p.x <= cx + 4;
      SmallMod(p.x);
    }
  }

  /** A non-empty string's plots are its leading chars' plots and then its last char's. */
  lemma StringPlotsLast(buf: seq<Byte>, font: seq<seq<Byte>>, x: uint8, y: uint8, s: seq<int8>)
    requires |s| > 0 && Drawable(font, s) && AllFit(|buf|, StringPlots(font, x, y, s))
    ensures Drawable(font, s[..|s| - 1]) && HasGlyph(font, s[|s| - 1])
    ensures AllFit(|buf|, StringPlots(font, x, y, s[..|s| - 1]))
    ensures AllFit(|buf|, CharPlots(font, CharColumn(x, |s| - 1), y, s[|s| - 1]))
    ensures ApplyPlots(buf, StringPlots(font, x, y, s)) ==
      ApplyPlots(ApplyPlots(buf, StringPlots(font, x, y, s[..|s| - 1])), CharPlots(font, CharColumn(x, |s| - 1), y, s[|s| - 1]))
  {
    var m := |s| - 1;
    assert s[..m + 1] == s;
    StringPlotsExtend(buf, font, x, y, s, m, |s|);
  }

  /** So a char drawn at column cx keeps every bit of the columns left of cx. */
  lemma CharKeepsLeft(buf: seq<Byte>, font: seq<seq<Byte>>, cx: uint8, y: uint8, c: int8, t: nat, j: nat)
    requires HasGlyph(font, c) && AllFit(|buf|, CharPlots(font, cx, y, c))
    requires t < cx && cx + 4 < 256 && t < |buf| && j < 8
    ensures BitAt(ApplyPlots(buf, CharPlots(font, cx, y, c))[t], j) == BitAt(buf[t], j)
  {
    CharMissesLeft(font, cx, y, c, t, j);
    PlotsKeepOthers(buf, CharPlots(font, cx, y, c), t, j);
  }

  /** A char drawn at column cx, not wrapping, shows its glyph in columns cx to cx + 4. */
  lemma CharShowsGlyph(buf: seq<Byte>, font: seq<seq<Byte>>, cx: uint8, y: uint8, c: int8, col: nat, row: nat)
    requires HasGlyph(font, c) && AllFit(|buf|, CharPlots(font, cx, y, c))
    requires col < 5 && row < 7 && (y + row) % 256 < 16 && cx + col < 256
    ensures cx + col < |buf|
    ensures BitAt(ApplyPlots(buf, CharPlots(font, cx, y, c))[cx + col], RowBit((y + row) % 256)) ==
      BitAt(font[GlyphIndex(c)][col], 6 - row)
  {
    var t := cx as int + col;
    SmallMod(t);
    CharDrawsGlyph(buf, font, cx, y, c, col, row);
    assert (cx + col) % 256 == t;
  }

  /**
   * drawString shows the whole string when it does not run past column 255:
   * each pixel of char i's 5x7 cell on a row below 16 ends with bit 6 - row
   * of that char's font column byte, whatever the later chars draw.
   */
  lemma {:induction false} StringShowsChar(buf: seq<Byte>, font: seq<seq<Byte>>, x: uint8, y: uint8, s: seq<int8>,
                                           i: nat, col: nat, row: nat)
    requires Drawable(font, s) && AllFit(|buf|, StringPlots(font, x, y, s)) && x + 6 * |s| <= 256
    requires i < |s| && col < 5 && row < 7 && (y + row) % 256 < 16
    ensures x + 6 * i + col < |buf|
    ensures BitAt(ApplyPlots(buf, StringPlots(font, x, y, s))[x + 6 * i + col], RowBit((y + row) % 256)) ==
      BitAt(font[GlyphIndex(s[i])][col], 6 - row)
    decreases |s|
  {
    var m := |s| - 1;
    var cx := CharColumn(x, m);
    var before := ApplyPlots(buf, StringPlots(font, x, y, s[..m]));
    assert Drawable(font, s[..m]) && AllFit(|buf|, StringPlots(font, x, y, s[..m])) &&
           HasGlyph(font, s[m]) && AllFit(|before|, CharPlots(font, cx, y, s[m])) &&
           ApplyPlots(buf, StringPlots(font, x, y, s)) == ApplyPlots(before, CharPlots(font, cx, y, s[m])) by {
      StringPlotsLast(buf, font, x, y, s);
    }
    assert cx == x + 6 * m && cx + 4 < 256 && x + 6 * i + col < 256 by {
      NoWrap(x, |s|, m, 4);
      NoWrap(x, |s|, i, col);
    }
    if i == m {
      LastCharCell(ApplyPlots(buf, StringPlots(font, x, y, s)), before, font, x, y, s[i], i, col, row);
    } else {
      assert s[..m][i] == s[i];
      StringShowsChar(buf, font, x, y, s[..m], i, col, row);
      EarlierCharCell(ApplyPlots(buf, StringPlots(font, x, y, s)), before, font, cx, y, s[m], x + 6 * i + col,
                      RowBit((y + row) % 256), BitAt(font[GlyphIndex(s[i])][col], 6 - row));
    }
  }

  /** Bit j of the byte at index t, read through an equal index u. */
  lemma SameIndexBit(a: seq<Byte>, t: int, u: int, j: nat)
    requires 0 <= t < |a| && t == u
    ensures 0 <= u < |a| && BitAt(a[t], j) == BitAt(a[u], j)
  {
  }

  /** The char drawn last, as char i of a line starting at x, shows its glyph bit in column x + 6i + col. */
  lemma LastCharCell(whole: seq<Byte>, before: seq<Byte>, font: seq<seq<Byte>>, x: uint8, y: uint8, c: int8,
                     i: nat, col: nat, row: nat)
    requires HasGlyph(font, c) && AllFit(|before|, CharPlots(font, CharColumn(x, i), y, c))
    requires whole == ApplyPlots(before, CharPlots(font, CharColumn(x, i), y, c))
    requires x + 6 * i + 4 < 256 && col < 5 && row < 7 && (y + row) % 256 < 16
    ensures x + 6 * i + col < |whole|
    ensures BitAt(whole[x + 6 * i + col], RowBit((y + row) % 256)) == BitAt(font[GlyphIndex(c)][col], 6 - row)
  {
    var cx := CharColumn(x, i);
    assert cx == x + 6 * i by {
      SmallMod(x + 6 * i);
    }
    CharShowsGlyph(before, font, cx, y, c, col, row);
    SameIndexBit(whole, cx + col, x + 6 * i + col, RowBit((y + row) % 256));
  }

  /** A bit left of cx keeps its value when a char is drawn at cx. */
  lemma EarlierCharCell(whole: seq<Byte>, before: seq<Byte>, font: seq<seq<Byte>>, cx: uint8, y: uint8, c: int8,
                        t: int, j: nat, v: bool)
    requires HasGlyph(font, c) && AllFit(|before|, CharPlots(font, cx, y, c))
    requires whole == ApplyPlots(before, CharPlots(font, cx, y, c))
    requires 0 <= t < cx && cx + 4 < 256 && t < |before| && j < 8 && BitAt(before[t], j) == v
    ensures t < |whole| && BitAt(whole[t], j) == v
  {
    CharKeepsLeft(before, font, cx, y, c, t, j);
  }

  /** x += 6 in uint8_t moves from char n's column to char n + 1's. */
  lemma CharColumnNext(x: uint8, n: nat)
    ensures CharColumn(x, n + 1) == (CharColumn(x, n) + 6) % 256
  {
    var a: int := x + 6 * n;
    assert x + 6 * (n + 1) == 6 + a;
    assert CharColumn(x, n) == a % 256;
    AddMod(6, a);
  }

  /** A (signed) char converted to the 16-bit unsigned size_t it is compared with. */
  function SizeT(i: int8): (n: nat)
    ensures n % 65536 == i % 65536 && n < 65536
  {
    if i >= 0 then i else i + 65536
  }

  /** i++ on a non-negative char: one up, except that 127 wraps to -128. */
  lemma CounterStep(i: int8)
    requires i >= 0
    ensures Int8(i + 1) == if i < 127 then i + 1 else -128
  {}

  /**
   * drawString(x, y, c): drawChar for each char, x += 6 after each, for as
   * long as the `char` counter compares below strlen(c).
   */
  method DrawString(tb: DisplayToolbox, font: seq<seq<Byte>>, x: uint8, y: uint8, s: seq<int8>)
    requires tb.disp.Valid() && |s| <= 65408
    requires Drawable(font, s[..DrawnCount(s)])
    requires AllFit(tb.disp.displayBuffers.Length, StringPlots(font, x, y, s[..DrawnCount(s)]))
    modifies tb.disp, tb.disp.displayBuffers, tb.disp.ShadowFrame()
    ensures tb.disp.Live() == ApplyPlots(old(tb.disp.Live()), StringPlots(font, x, y, s[..DrawnCount(s)]))
    ensures tb.disp.Shadow() == old(tb.disp.Shadow()) && tb.disp.wire == old(tb.disp.wire)
  {
    ghost var live0 := tb.disp.Live();
    ghost var m := DrawnCount(s);
    ghost var n: nat := 0;
    var cx := x;
    var i: int8 := 0;
    while SizeT(i) < |s|
      invariant n <= m
      invariant (0 <= i && i == n) || (i == -128 && n == 128)
      invariant cx == CharColumn(x, n)
      invariant ShowsPrefix(tb.disp, font, x, y, s, n, live0)
      invariant tb.disp.Shadow() == old(tb.disp.Shadow()) && tb.disp.wire == old(tb.disp.wire)
      decreases 128 - n
    {
      CounterInRange(s, i, n);
      cx, i := DrawStringStep(tb, font, x, y, s, cx, i, n, m, live0);
      n := n + 1;
    }
    CounterAtEnd(s, i, n);
  }

  /** While the counter compares below strlen, it is n itself and below the drawn count. */
  lemma CounterInRange(s: seq<int8>, i: int8, n: nat)
    requires |s| <= 65408 && n <= DrawnCount(s) && ((0 <= i && i == n) || (i == -128 && n == 128))
    requires SizeT(i) < |s|
    ensures 0 <= i && i == n && n < DrawnCount(s)
  {
  }

  /** Once the counter no longer compares below strlen, n characters have been drawn. */
  lemma CounterAtEnd(s: seq<int8>, i: int8, n: nat)
    requires |s| <= 65408 && n <= DrawnCount(s) && ((0 <= i && i == n) || (i == -128 && n == 128))
    requires SizeT(i) >= |s|
    ensures n == DrawnCount(s)
  {
  }

  /** The live buffer holds live0 with the first n characters of s drawn over it. */
  ghost predicate ShowsPrefix(disp: MatrixDisplay, font: seq<seq<Byte>>, x: uint8, y: uint8, s: seq<int8>,
                              n: nat, live0: seq<Byte>)
    reads disp, disp.displayBuffers
  {
    n <= |s| && Drawable(font, s[..n]) && AllFit(|live0|, StringPlots(font, x, y, s[..n])) &&
    disp.Live() == ApplyPlots(live0, StringPlots(font, x, y, s[..n]))
  }

  /**
   * One pass of drawString's loop: character n, at counter i, is drawn at
   * column cx; then x += 6 and i++ in their own widths.
   */
  method DrawStringStep(tb: DisplayToolbox, font: seq<seq<Byte>>, x: uint8, y: uint8, s: seq<int8>,
                        cx: uint8, i: int8, ghost n: nat, ghost m: nat, ghost live0: seq<Byte>)
      returns (cx': uint8, i': int8)
    requires tb.disp.Valid() && 0 <= i && i == n && n < m <= |s| && cx == CharColumn(x, n)
    requires Drawable(font, s[..m]) && AllFit(|live0|, StringPlots(font, x, y, s[..m]))
    requires |live0| == tb.disp.displayBuffers.Length && ShowsPrefix(tb.disp, font, x, y, s, n, live0)
    modifies tb.disp, tb.disp.displayBuffers, tb.disp.ShadowFrame()
    ensures ShowsPrefix(tb.disp, font, x, y, s, n + 1, live0)
    ensures cx' == CharColumn(x, n + 1)
    ensures (0 <= i' && i' == n + 1) || (i' == -128 && n + 1 == 128)
    ensures tb.disp.Shadow() == old(tb.disp.Shadow()) && tb.disp.wire == old(tb.disp.wire)
  {
    cx' := (cx as int + 6) % 256;
    assert cx' == CharColumn(x, n + 1) by {
      CharColumnNext(x, n);
    }
    i' := Int8(i + 1);
    assert (0 <= i' && i' == n + 1) || (i' == -128 && n + 1 == 128) by {
      CounterStep(i);
    }
    StringPlotsExtend(live0, font, x, y, s, n, m);
    DrawChar(tb, font, cx, y, s[i]);
  }
}
