/** The pixel-format, usage and geometry tables of gralloc/gralloc_gbm.cpp. */
module GbmFormats {
  import opened Options

  // ---------------------------------------------------------------- usage bits

  /** A usage word, as the set of the positions of its one bits: bitwise and is intersection, bitwise or
      is union. */
  type Usage = set<nat>

  /** The gralloc usage masks. Their values come from a system header that is not part of this model;
      only the relations in Valid are used. */
  datatype UsageBits = UsageBits(
    swReadMask: Usage, swWriteMask: Usage, swReadOften: Usage, swWriteOften: Usage,
    cursor: Usage, hwTexture: Usage, hwRender: Usage, hwFb: Usage, hwComposer: Usage)
  {
    predicate Valid() {
      && swReadMask !! swWriteMask
      && swReadOften <= swReadMask
      && swWriteOften <= swWriteMask
      && (swReadMask + swWriteMask) !! (cursor + hwTexture + hwRender + hwFb + hwComposer)
    }
  }

  predicate Has(usage: Usage, bits: Usage) {
    usage * bits != {}
  }

  /** The GBM_BO_USE_* flags of a request. */
  datatype Bind = Bind(linear: bool, cursor: bool, rendering: bool, scanout: bool)

  /** get_pipe_bind: the cursor flag is never set, its assignment is commented out in the source. */
  function PipeBind(b: UsageBits, usage: Usage): Bind {
    Bind(
      Has(usage, b.swReadOften + b.swWriteOften),
      false,
      Has(usage, b.hwRender + b.hwTexture) || Has(usage, b.hwComposer),
      Has(usage, b.hwFb) || Has(usage, b.hwComposer))
  }

  function Either(a: Bind, c: Bind): Bind {
    Bind(a.linear || c.linear, a.cursor || c.cursor, a.rendering || c.rendering, a.scanout || c.scanout)
  }

  /** The flags of a usage are those of its bits taken one by one; software bits alone ask at most for a
      linear layout. */
  lemma BindFollowsBits(b: UsageBits, u: Usage, v: Usage)
    requires b.Valid()
    ensures PipeBind(b, u + v) == Either(PipeBind(b, u), PipeBind(b, v))
    ensures u <= b.swReadMask + b.swWriteMask ==> !PipeBind(b, u).rendering && !PipeBind(b, u).scanout
  {
    HasOfUnion(u, v, b.swReadOften + b.swWriteOften);
    HasOfUnion(u, v, b.hwRender + b.hwTexture);
    HasOfUnion(u, v, b.hwFb);
    HasOfUnion(u, v, b.hwComposer);
  }

  /** What each bit alone asks for; no bit asks for the cursor plane, and no bits for nothing. */
  lemma BitGivesFlags(b: UsageBits, bit: nat)
    ensures var bind := PipeBind(b, {bit});
      && (bind.linear <==> bit in b.swReadOften || bit in b.swWriteOften)
      && (bind.rendering <==> bit in b.hwRender || bit in b.hwTexture || bit in b.hwComposer)
      && (bind.scanout <==> bit in b.hwFb || bit in b.hwComposer)
      && !bind.cursor
    ensures PipeBind(b, {}) == Bind(false, false, false, false)
  {
    HasBit(bit, b.swReadOften + b.swWriteOften);
    HasBit(bit, b.hwRender + b.hwTexture);
    HasBit(bit, b.hwFb);
    HasBit(bit, b.hwComposer);
  }

  lemma HasBit(bit: nat, bits: Usage)
    ensures Has({bit}, bits) <==> bit in bits
  {
    if bit in bits {
      assert bit in {bit} * bits;
    }
  }

  lemma HasOfUnion(u: Usage, v: Usage, bits: Usage)
    ensures Has(u + v, bits) <==> Has(u, bits) || Has(v, bits)
  {
    assert (u + v) * bits == u * bits + v * bits;
  }

  // ---------------------------------------------------------------- formats

  datatype HalFormat =
    | RGBA8888 | RGBX8888 | RGB888 | RGB565 | BGRA8888 | YV12
    | YCbCr422SP | YCrCb420SP | YCbCr422I
    | OtherFormat(code: int)

  datatype GbmFormat = ABGR8888 | XBGR8888 | GbmRGB888 | GbmRGB565 | ARGB8888 | GR88

  /** get_gbm_format; None is the format 0 that the library refuses. */
  function GbmFormatOf(format: HalFormat): Option<GbmFormat> {
    match format
    case RGBA8888 => Some(ABGR8888)
    case RGBX8888 => Some(XBGR8888)
    case RGB888 => Some(GbmRGB888)
    case RGB565 => Some(GbmRGB565)
    case BGRA8888 => Some(ARGB8888)
    case YV12 => Some(GR88)
    case _ => None
  }

  /** gralloc_gbm_get_bpp */
  function Bpp(format: HalFormat): nat {
    match format
    case RGBA8888 => 4
    case RGBX8888 => 4
    case BGRA8888 => 4
    case RGB888 => 3
    case RGB565 => 2
    case YCbCr422I => 2
    case YV12 => 1
    case YCbCr422SP => 1
    case YCrCb420SP => 1
    case OtherFormat(_) => 0
  }

  /** Bytes of one pixel of a GBM format, as its name says. */
  function GbmBytes(format: GbmFormat): nat {
    match format
    case ABGR8888 => 4
    case XBGR8888 => 4
    case ARGB8888 => 4
    case GbmRGB888 => 3
    case GbmRGB565 => 2
    case GR88 => 2
  }

  // ---------------------------------------------------------------- pixel layouts

  datatype Channel = Red | Green | Blue | Alpha | Unused

  /** A pixel as its channels and their widths in bits, from the lowest bit of the little-endian pixel up. */
  type Layout = seq<(Channel, nat)>

  function Bits(layout: Layout): nat {
    if layout == [] then 0 else layout[0].1 + Bits(layout[1..])
  }

  /** Android's packed formats: those of whole bytes are named in the order of the bytes in memory, RGB_565 from
      the highest bit down. The planar and unknown ones have none. */
  function HalLayout(format: HalFormat): Option<Layout> {
    match format
    case RGBA8888 => Some([(Red, 8), (Green, 8), (Blue, 8), (Alpha, 8)])
    case RGBX8888 => Some([(Red, 8), (Green, 8), (Blue, 8), (Unused, 8)])
    case RGB888 => Some([(Red, 8), (Green, 8), (Blue, 8)])
    case RGB565 => Some([(Blue, 5), (Green, 6), (Red, 5)])
    case BGRA8888 => Some([(Blue, 8), (Green, 8), (Red, 8), (Alpha, 8)])
    case _ => None
  }

  /** GBM formats are all named from the highest bit down. */
  function GbmLayout(format: GbmFormat): Layout {
    match format
    case ABGR8888 => [(Red, 8), (Green, 8), (Blue, 8), (Alpha, 8)]
    case XBGR8888 => [(Red, 8), (Green, 8), (Blue, 8), (Unused, 8)]
    case ARGB8888 => [(Blue, 8), (Green, 8), (Red, 8), (Alpha, 8)]
    case GbmRGB888 => [(Blue, 8), (Green, 8), (Red, 8)]
    case GbmRGB565 => [(Blue, 5), (Green, 6), (Red, 5)]
    case GR88 => [(Red, 8), (Green, 8)]
  }

  /** The library's format has the very pixel layout of the requested one, except for RGB_888, whose red and blue
      change places; and the pixel sizes are those of the layouts. The only other format accepted is YV12. */
  lemma LayoutsAgreeIffNotRgb888(format: HalFormat)
    requires HalLayout(format).Some?
    ensures GbmFormatOf(format).Some?
    ensures GbmLayout(GbmFormatOf(format).value) == HalLayout(format).value <==> format != RGB888
    ensures 8 * Bpp(format) == Bits(HalLayout(format).value) == Bits(GbmLayout(GbmFormatOf(format).value))
    ensures 8 * GbmBytes(GbmFormatOf(format).value) == Bits(HalLayout(format).value)
  {
    var hal, gbm := HalLayout(format).value, GbmLayout(GbmFormatOf(format).value);
    BitsOfThree(hal);
    BitsOfThree(gbm);
    assert format == RGB888 ==> hal[0] != gbm[0];
  }

  lemma BitsOfThree(layout: Layout)
    requires 3 <= |layout| <= 4
    ensures Bits(layout) == layout[0].1 + layout[1].1 + layout[2].1 + (if |layout| == 4 then layout[3].1 else 0)
  {
    assert layout[1..][1..] == layout[2..] && layout[2..][1..] == layout[3..];
    assert Bits(layout[2..]) == layout[2].1 + Bits(layout[3..]);
    assert Bits(layout[1..]) == layout[1].1 + Bits(layout[2..]);
    if |layout| == 4 {
      assert layout[3..][1..] == [];
      assert Bits(layout[3..]) == layout[3].1 + Bits([]);
    }
  }

  /** Otherwise a format is accepted only if it is YV12: one byte a pixel of Y, and a library pixel of two whole
      bytes. */
  lemma OnlyYv12IsAcceptedBesides(format: HalFormat)
    requires HalLayout(format) == None
    ensures GbmFormatOf(format).Some? <==> format == YV12
    ensures format == YV12 ==>
      var gbm := GbmFormatOf(format).value;
      && Bpp(format) == 1 && GbmBytes(gbm) == |GbmLayout(gbm)| == 2
      && (forall i :: 0 <= i < |GbmLayout(gbm)| ==> GbmLayout(gbm)[i].1 == 8)
  {}

  // ---------------------------------------------------------------- geometry

  datatype BufferSpec = BufferSpec(width: nat, height: nat, format: HalFormat, usage: Usage)

  /** What is asked of the library: dimensions in pixels of the GBM format. */
  datatype Request = Request(width: nat, height: nat, format: Option<GbmFormat>)

  /** gbm_alloc */
  function AllocRequest(b: UsageBits, spec: BufferSpec): Request {
    var bind := PipeBind(b, spec.usage);
    var width := if bind.cursor && spec.width < 64 then 64 else spec.width;
    var height := if bind.cursor && spec.height < 64 then 64 else spec.height;
    if spec.format == YV12 then Request(width / 2, height + spec.height / 2, GbmFormatOf(spec.format))
    else Request(width, height, GbmFormatOf(spec.format))
  }

  /** gbm_import */
  function ImportRequest(spec: BufferSpec): Request {
    if spec.format == YV12 then Request(spec.width / 2, spec.height + spec.height / 2, GbmFormatOf(spec.format))
    else Request(spec.width, spec.height, GbmFormatOf(spec.format))
  }

  /** The extent (from 0,0) that gbm_map asks for when locking rectangle (x, y, w, h). */
  function MapExtent(format: HalFormat, x: nat, y: nat, w: nat, h: nat): (nat, nat) {
    if format == YV12 then (x + w / 2, y + (h + h / 2)) else (x + w, y + h)
  }

  /** The dimensions of a buffer are the same whether its bo was allocated or imported, for every
      usage: no usage reaches the enlarging branch for cursors. */
  lemma AllocMatchesImport(b: UsageBits, spec: BufferSpec)
    ensures AllocRequest(b, spec) == ImportRequest(spec)
    ensures !PipeBind(b, spec.usage).cursor
  {}

  predicate InBounds(spec: BufferSpec, x: nat, y: nat, w: nat, h: nat) {
    x + w <= spec.width && y + h <= spec.height
  }

  /** The mapped extent lies inside the bo. */
  predicate ExtentFits(b: UsageBits, spec: BufferSpec, x: nat, y: nat, w: nat, h: nat) {
    var bo := AllocRequest(b, spec);
    var extent := MapExtent(spec.format, x, y, w, h);
    extent.0 <= bo.width && extent.1 <= bo.height
  }

  lemma HalvingFits(w: nat, width: nat)
    requires w <= width
    ensures w / 2 <= width / 2 && w + w / 2 <= width + width / 2
  {}

  /** Every in-bounds rectangle maps inside the bo, provided that a planar one starts at column 0. */
  lemma LockedRectangleFits(b: UsageBits, spec: BufferSpec, x: nat, y: nat, w: nat, h: nat)
    requires InBounds(spec, x, y, w, h)
    requires spec.format == YV12 ==> x == 0
    ensures ExtentFits(b, spec, x, y, w, h)
  {
    HalvingFits(w, spec.width);
    HalvingFits(h, spec.height);
  }

  /** For a planar buffer the starting column matters: every in-bounds rectangle that starts at x stays inside
      the bo if and only if x is 0, or x is 1 and the width is even. The source logs an error for a non-zero
      origin but maps all the same. */
  lemma PlanarOffsetMayOverrun(b: UsageBits, spec: BufferSpec, x: nat)
    requires spec.format == YV12 && x <= spec.width
    ensures (forall y: nat, w: nat, h: nat :: InBounds(spec, x, y, w, h) ==> ExtentFits(b, spec, x, y, w, h))
        <==> x == 0 || (x == 1 && spec.width % 2 == 0)
  {
    var widest := spec.width - x;
    assert InBounds(spec, x, 0, widest, 0);
    forall y: nat, w: nat, h: nat | InBounds(spec, x, y, w, h)
      ensures x + w / 2 <= x + widest / 2 && y + (h + h / 2) <= spec.height + spec.height / 2
    {
      HalvingFits(w, widest);
      HalvingFits(h, spec.height);
    }
  }

  /** The rectangle lies in the extent: columns below the first, rows below the second part. */
  predicate HoldsRectangle(extent: (nat, nat), x: nat, y: nat, w: nat, h: nat) {
    forall c: nat, r: nat :: x <= c < x + w && y <= r < y + h ==> InPixels(extent, c, r)
  }

  predicate InPixels(extent: (nat, nat), c: nat, r: nat) {
    c < extent.0 && r < extent.1
  }

  /** Outside planar formats a lock maps all it locks, and no extent from the origin that does is smaller. */
  lemma PackedExtentIsLeast(format: HalFormat, x: nat, y: nat, w: nat, h: nat, other: (nat, nat))
    requires format != YV12
    ensures HoldsRectangle(MapExtent(format, x, y, w, h), x, y, w, h)
    ensures w > 0 && h > 0 && HoldsRectangle(other, x, y, w, h) ==>
      MapExtent(format, x, y, w, h).0 <= other.0 && MapExtent(format, x, y, w, h).1 <= other.1
  {
    if w > 0 && h > 0 && HoldsRectangle(other, x, y, w, h) {
      assert InPixels(other, x + w - 1, y + h - 1);
    }
  }

  /** A planar lock maps all bytes of the Y plane it locks, wherever it starts, if and only if it has an even
      width or does not start at column 0; a library pixel has two bytes. */
  lemma PlanarLumaIsMappedIff(x: nat, y: nat, w: nat, h: nat)
    requires w > 0 && h > 0
    ensures var extent := MapExtent(YV12, x, y, w, h);
      HoldsRectangle((2 * extent.0, extent.1), x, y, w, h) <==> w % 2 == 0 || x > 0
  {
    var extent := MapExtent(YV12, x, y, w, h);
    if HoldsRectangle((2 * extent.0, extent.1), x, y, w, h) {
      assert InPixels((2 * extent.0, extent.1), x + w - 1, y);
    }
  }

  /** Moving a lock moves its extent, and locking all of a buffer maps all of its bo. */
  lemma ExtentMovesAndFills(b: UsageBits, spec: BufferSpec, x: nat, y: nat, w: nat, h: nat)
    ensures var origin, extent := MapExtent(spec.format, 0, 0, w, h), MapExtent(spec.format, x, y, w, h);
      extent.0 - origin.0 == x && extent.1 - origin.1 == y
    ensures var whole := MapExtent(spec.format, 0, 0, spec.width, spec.height);
      AllocRequest(b, spec).width == whole.0 && AllocRequest(b, spec).height == whole.1
  {}

  /** The bytes of a bo of the given rows and byte stride. */
  function BoBytes(stride: nat, rows: nat): nat {
    stride * rows
  }

  /** A Y plane and two chroma planes of half the stride and half the rows, rounded up. */
  function PlanarBytes(stride: nat, height: nat): nat {
    stride * height + 2 * ((stride / 2) * ((height + 1) / 2))
  }

  /** For an even byte stride the YV12 bo holds exactly the three planes if and only if the height is
      even (or the stride is zero). */
  lemma PlanarBufferIsExact(b: UsageBits, spec: BufferSpec, stride: nat)
    requires spec.format == YV12 && stride % 2 == 0
    ensures BoBytes(stride, AllocRequest(b, spec).height) == PlanarBytes(stride, spec.height)
       <==> spec.height % 2 == 0 || stride == 0
  {
    var half, up, down := stride / 2, (spec.height + 1) / 2, spec.height / 2;
    assert stride == 2 * half;
    assert 2 * (half * up) == stride * up;
    assert BoBytes(stride, spec.height + down) == stride * spec.height + stride * down;
    assert up == down || up == down + 1;
    assert up == down + 1 ==> stride * up == stride * down + stride;
  }

  /** Where byte (row, column) of the Y plane lies in the bo. */
  function LumaByte(stride: nat, row: nat, column: nat): nat {
    row * stride + column
  }

  /** Where byte (row, column) of a chroma plane lies: plane 0 follows the Y plane, plane 1 follows plane 0. */
  function ChromaByte(stride: nat, height: nat, plane: nat, row: nat, column: nat): nat {
    height * stride + (plane * ((height + 1) / 2) + row) * (stride / 2) + column
  }

  /** Byte `at` of the bo lies in the mapped columns and rows; a GR88 pixel has two bytes. */
  predicate InExtent(stride: nat, extent: (nat, nat), at: nat)
    requires stride > 0
  {
    at / stride < extent.1 && at % stride < 2 * extent.0
  }

  /** All bytes of the w x h pixels at the origin, in the three planes, lie in what a lock of that rectangle
      maps. */
  predicate PlanarLockCovers(stride: nat, height: nat, w: nat, h: nat)
    requires stride > 0
  {
    var extent := MapExtent(YV12, 0, 0, w, h);
    && (forall row: nat, column: nat :: row < h && column < w ==>
          InExtent(stride, extent, LumaByte(stride, row, column)))
    && (forall plane: nat, row: nat, column: nat :: plane < 2 && row < (h + 1) / 2 && column < (w + 1) / 2 ==>
          InExtent(stride, extent, ChromaByte(stride, height, plane, row, column)))
  }

  lemma Scale(a: nat, b: nat, c: nat)
    requires a <= b
    ensures a * c <= b * c
  {}

  lemma RowBelow(at: nat, stride: nat, rows: nat)
    requires stride > 0
    ensures at / stride < rows <==> at < rows * stride
  {
    assert at == at / stride * stride + at % stride;
    if at / stride < rows {
      assert (at / stride + 1) * stride <= rows * stride;
    } else {
      assert rows * stride <= at / stride * stride;
    }
  }

  lemma ColumnOf(at: nat, stride: nat, row: nat, column: nat)
    requires at == row * stride + column && column < stride
    ensures at / stride == row && at % stride == column
  {
    RowBelow(at, stride, row);
    assert (row + 1) * stride == row * stride + stride;
    RowBelow(at, stride, row + 1);
  }

  /** A chroma byte in units of half a row. */
  lemma ChromaHalves(stride: nat, height: nat, plane: nat, row: nat, column: nat)
    requires stride % 2 == 0
    ensures ChromaByte(stride, height, plane, row, column)
         == (2 * height + plane * ((height + 1) / 2) + row) * (stride / 2) + column
  {
    assert stride == 2 * (stride / 2);
    assert height * stride == 2 * height * (stride / 2);
  }

  /** `n` half rows reach below row `rows` only if there are fewer than two for each. */
  lemma HalvesBelow(n: nat, stride: nat, rows: nat)
    requires stride > 0 && stride % 2 == 0
    ensures n * (stride / 2) / stride < rows <==> n < 2 * rows
  {
    var half := stride / 2;
    RowBelow(n * half, stride, rows);
    assert rows * stride == 2 * rows * half;
    if n < 2 * rows {
      Scale(n + 1, 2 * rows, half);
      assert (n + 1) * half == n * half + half;
    } else {
      Scale(2 * rows, n, half);
    }
  }

  lemma CoveringLockIsWhole(stride: nat, height: nat, w: nat, h: nat)
    requires stride > 0 && stride % 2 == 0 && w > 0 && 0 < h <= height
    requires PlanarLockCovers(stride, height, w, h)
    ensures h == height && h % 2 == 0 && w == stride
  {
    var extent, half := MapExtent(YV12, 0, 0, w, h), stride / 2;
    var last := (h + 1) / 2 - 1;
    assert InExtent(stride, extent, ChromaByte(stride, height, 1, last, 0));
    ChromaHalves(stride, height, 1, last, 0);
    HalvesBelow(2 * height + (height + 1) / 2 + last, stride, extent.1);
    assert h == height && h % 2 == 0;
    if w > stride {
      assert InExtent(stride, extent, ChromaByte(stride, height, 1, last, half));
      ChromaHalves(stride, height, 1, last, half);
      var n := 2 * height + height / 2 + last + 1;
      assert (n - 1) * half + half == n * half;
      HalvesBelow(n, stride, extent.1);
    } else {
      SecondChromaRow(stride, height, w);
    }
  }

  /** The second row of half a stride ends in the right half of its row of the bo. */
  lemma SecondChromaRow(stride: nat, height: nat, w: nat)
    requires 0 < w <= stride && stride % 2 == 0 && 0 < height && height % 2 == 0
    requires PlanarLockCovers(stride, height, w, height)
    ensures w == stride
  {
    var extent, column := MapExtent(YV12, 0, 0, w, height), (w + 1) / 2 - 1;
    var plane, row := if height == 2 then 1 else 0, if height == 2 then 0 else 1;
    assert InExtent(stride, extent, ChromaByte(stride, height, plane, row, column));
    assert ChromaByte(stride, height, plane, row, column) == height * stride + (stride / 2 + column);
    ColumnOf(height * stride + (stride / 2 + column), stride, height, stride / 2 + column);
  }

  lemma WholeChroma(stride: nat, height: nat, plane: nat, row: nat, column: nat)
    requires stride > 0 && stride % 2 == 0 && height % 2 == 0
    requires plane < 2 && row < height / 2 && column < stride / 2
    ensures ChromaByte(stride, height, plane, row, column) / stride < height + height / 2
  {
    var half, n, rows := stride / 2, 2 * height + plane * (height / 2) + row, height + height / 2;
    ChromaHalves(stride, height, plane, row, column);
    assert plane == 0 || plane == 1;
    assert n + 1 <= 2 * rows;
    BelowByHalves(n, half, rows, column);
    assert stride == 2 * half;
    RowBelow(n * half + column, stride, rows);
  }

  lemma BelowByHalves(n: nat, half: nat, rows: nat, column: nat)
    requires n + 1 <= 2 * rows && column < half
    ensures n * half + column < rows * (2 * half)
  {
    Scale(n + 1, 2 * rows, half);
    assert (n + 1) * half == n * half + half;
    assert 2 * rows * half == rows * (2 * half);
  }

  lemma WholeLockCovers(stride: nat, height: nat)
    requires stride > 0 && stride % 2 == 0 && height % 2 == 0
    ensures PlanarLockCovers(stride, height, stride, height)
  {
    var extent := MapExtent(YV12, 0, 0, stride, height);
    forall row: nat, column: nat | row < height && column < stride
      ensures InExtent(stride, extent, LumaByte(stride, row, column))
    {
      ColumnOf(LumaByte(stride, row, column), stride, row, column);
    }
    forall plane: nat, row: nat, column: nat | plane < 2 && row < (height + 1) / 2 && column < (stride + 1) / 2
      ensures InExtent(stride, extent, ChromaByte(stride, height, plane, row, column))
    {
      WholeChroma(stride, height, plane, row, column);
    }
  }

  /** What a planar lock maps holds all it locks if and only if the rectangle is the whole bo, stride included,
      and of even height: the chroma planes come after the whole Y plane, two chroma rows to a row of the bo, but
      the source maps as if they followed the locked rows. */
  lemma PlanarLockCoversIffWholeAndEven(stride: nat, height: nat, w: nat, h: nat)
    requires stride > 0 && stride % 2 == 0 && w > 0 && 0 < h <= height
    ensures PlanarLockCovers(stride, height, w, h) <==> h == height && h % 2 == 0 && w == stride
  {
    if PlanarLockCovers(stride, height, w, h) {
      CoveringLockIsWhole(stride, height, w, h);
    }
    if h == height && h % 2 == 0 && w == stride {
      WholeLockCovers(stride, height);
    }
  }

  // ---------------------------------------------------------------- stride

  /** The pixel stride gralloc_gbm_bo_create reports for a byte stride. */
  function PixelStride(format: HalFormat, byteStride: nat): nat
    requires Bpp(format) != 0
  {
    byteStride / Bpp(format)
  }

  /** The byte stride covers one row of the requested bo. */
  predicate CoversRow(b: UsageBits, spec: BufferSpec, byteStride: nat)
    requires GbmFormatOf(spec.format).Some?
  {
    byteStride >= AllocRequest(b, spec).width * GbmBytes(GbmFormatOf(spec.format).value)
  }

  lemma DivideStride(byteStride: nat, bpp: nat, width: nat)
    requires bpp == 1 || bpp == 2 || bpp == 3 || bpp == 4
    ensures byteStride / bpp * bpp <= byteStride < (byteStride / bpp + 1) * bpp
    ensures byteStride >= width * bpp ==> byteStride / bpp >= width
  {}

  /** Every accepted format has a non-zero pixel size, the reported stride never claims more bytes than
      there are, and it covers the requested width for every stride the library may choose, if and only
      if the buffer is not a planar one of odd width. */
  lemma StrideIsSound(b: UsageBits, spec: BufferSpec)
    requires GbmFormatOf(spec.format).Some?
    ensures Bpp(spec.format) != 0
    ensures forall stride: nat :: PixelStride(spec.format, stride) * Bpp(spec.format) <= stride
    ensures spec.format != YV12 ==>
      forall stride: nat ::
        var bytes := GbmBytes(GbmFormatOf(spec.format).value);
        PixelStride(spec.format, stride) * bytes <= stride < (PixelStride(spec.format, stride) + 1) * bytes
    ensures (forall stride: nat :: CoversRow(b, spec, stride) ==> PixelStride(spec.format, stride) >= spec.width)
       <==> spec.format != YV12 || spec.width % 2 == 0
  {
    var bpp := Bpp(spec.format);
    forall stride: nat
      ensures PixelStride(spec.format, stride) * bpp <= stride < (PixelStride(spec.format, stride) + 1) * bpp
      ensures CoversRow(b, spec, stride) && (spec.format != YV12 || spec.width % 2 == 0) ==>
        PixelStride(spec.format, stride) >= spec.width
    {
      DivideStride(stride, bpp, spec.width);
    }
    if spec.format == YV12 && spec.width % 2 == 1 {
      var tight := spec.width - 1;
      assert CoversRow(b, spec, tight) && PixelStride(spec.format, tight) < spec.width;
    }
  }
}
