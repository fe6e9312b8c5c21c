/** The size of a graphics buffer from its dimensions and pixel format, and the part of it that a locked rectangle
    occupies. */
module BufferSize {
  import opened Options

  const INT_MAX: int := 0x7FFF_FFFF
  const MAX_WIDTH_HEIGHT: int := 8191

  /** The HAL pixel formats the allocator knows; every other code is Unknown. */
  datatype Format =
    | RGBA_8888 | RGBX_8888 | BGRA_8888
    | RGB_888
    | RGB_565 | RGBA_5551 | RGBA_4444
    | YCbCr_422_SP | YCbCr_422_I
    | YCBCR42XMBN | YCbCr_420_SP | YCbCr_420_P | YCrCb_420_SP | YV12
    | Unknown

  /** The usage flags that matter for alignment. */
  datatype Usage = Usage(hwTexture: bool, hwComposer: bool, hwRender: bool, hw2d: bool)

  /** get_format_bpp; None for an unknown format. */
  function Bpp(f: Format): (bpp: Option<int>)
    ensures bpp.Some? ==> bpp.value in {12, 16, 24, 32}
  {
    match f
    case RGBA_8888 | RGBX_8888 | BGRA_8888 => Some(32)
    case RGB_888 => Some(24)
    case RGB_565 | RGBA_5551 | RGBA_4444 | YCbCr_422_SP | YCbCr_422_I => Some(16)
    case YCBCR42XMBN | YCbCr_420_SP | YCbCr_420_P | YCrCb_420_SP | YV12 => Some(12)
    case Unknown => None
  }

  /** is_non_planar_and_independent_pixel_format */
  predicate IndependentPixels(f: Format) {
    f.RGBA_8888? || f.RGBX_8888? || f.BGRA_8888? || f.RGB_888? || f.RGB_565? || f.RGBA_5551? || f.RGBA_4444?
  }

  /** get_format_width_and_height_alignment */
  function Alignment(f: Format, u: Usage): Option<(int, int)> {
    match f
    case RGBA_8888 | RGBX_8888 | BGRA_8888 => Some((if u.hwTexture || u.hwComposer || u.hwRender then 2 else 1, 1))
    case YCbCr_422_SP | YCbCr_422_I => Some((2, 1))
    case YCbCr_420_SP | YCbCr_420_P | YCrCb_420_SP => Some((2, 2))
    case RGB_565 | RGBA_5551 | RGBA_4444 => Some((if u.hwTexture || u.hwRender then 4 else 1, 1))
    case RGB_888 => Some((if u.hwTexture || u.hwComposer || u.hwRender then 8 else if u.hw2d then 4 else 1, 1))
    case YCBCR42XMBN => Some((16, 16))
    case YV12 => Some((16, 2))
    case Unknown => None
  }

  // ----- align_up

  /** The least multiple of the alignment that is not below the value; None when the value is negative or no such
      multiple fits an int. */
  function AlignUp(value: int, alignment: int): (r: Option<int>)
    requires 0 < alignment <= INT_MAX
    ensures r.Some? ==> 0 <= value && Least(value, alignment, r.value) && r.value <= INT_MAX
    ensures r.None? ==> value < 0 || forall n :: value <= n && n % alignment == 0 ==> INT_MAX < n
  {
    if value < 0 then None
    else
      var remainder := value % alignment;
      var toAdd := if remainder > 0 then alignment - remainder else 0;
      AlignedUp(value, alignment, value + toAdd);
      if value > INT_MAX - toAdd then None else Some(value + toAdd)
  }

  ghost predicate Least(value: int, alignment: int, result: int)
    requires 0 < alignment
  {
    && value <= result < value + alignment && result % alignment == 0
    && forall n :: value <= n && n % alignment == 0 ==> result <= n
  }

  lemma AlignedUp(value: int, alignment: int, result: int)
    requires 0 <= value && 0 < alignment
    requires result == value + if value % alignment > 0 then alignment - value % alignment else 0
    ensures Least(value, alignment, result)
  {
    var q, r := value / alignment, value % alignment;
    assert value == q * alignment + r;
    var m := if r > 0 then q + 1 else q;
    assert result == m * alignment;
    MultipleMod(m, alignment);
    forall n | value <= n && n % alignment == 0
      ensures result <= n
    {
      var k := n / alignment;
      assert n == k * alignment;
      if k < m {
        MulMono(k, m - 1, alignment);
      } else {
        MulMono(m, k, alignment);
      }
    }
  }

  lemma MulMono(a: int, b: int, c: int)
    requires a <= b && 0 <= c
    ensures a * c <= b * c
  {
  }

  lemma MultipleMod(k: int, n: int)
    requires 0 < n
    ensures k * n % n == 0
  {
    var r := k * n % n;
    assert k * n == k * n / n * n + r;
    assert (k - k * n / n) * n == r;
    if k - k * n / n > 0 {
      MulMono(1, k - k * n / n, n);
    } else if k - k * n / n < 0 {
      MulMono(k - k * n / n, -1, n);
    }
  }

  // ----- calc_buf_size

  datatype Sized = Sized(width: int, height: int, bytes: int)

  /** The stride the chroma planes of YV12 are given: half the luma stride, aligned to 16. */
  function ChromaStride(width: int): int {
    (width / 2 + 15) / 16 * 16
  }

  function CalcBufSize(width: int, height: int, f: Format, u: Usage): Option<Sized> {
    if width < 0 || height < 0 || Bpp(f).None? || Alignment(f, u).None? then None
    else
      var bpp, (alignW, alignH) := Bpp(f).value, Alignment(f, u).value;
      var w, h := AlignUp(width, alignW), AlignUp(height, alignH);
      if w.None? || h.None? || w.value > MAX_WIDTH_HEIGHT || h.value > MAX_WIDTH_HEIGHT then None
      else if f.YV12? then
        var uvStride := match AlignUp(w.value / 2, 16) case Some(n) => n case None => 0;
        Some(Sized(w.value, h.value, (uvStride + w.value / 2) * h.value * bpp / 8))
      else
        Some(Sized(w.value, h.value, w.value * h.value * bpp / 8))
  }

  /** gralloc_get_buf_size of a buffer with these actual dimensions. */
  function GetBufSize(width: int, height: int, f: Format): Option<int> {
    match Bpp(f)
    case None => None
    case Some(bpp) => Some(width * height * bpp / 8)
  }

  /** The dimensions are the least aligned ones that are large enough, and at most 8191. */
  lemma CalcDimensions(width: int, height: int, f: Format, u: Usage)
    ensures var r := CalcBufSize(width, height, f, u); r.Some? ==>
      && 0 <= width <= r.value.width <= MAX_WIDTH_HEIGHT && 0 <= height <= r.value.height <= MAX_WIDTH_HEIGHT
      && Least(width, Alignment(f, u).value.0, r.value.width)
      && Least(height, Alignment(f, u).value.1, r.value.height)
  {
  }

  /** The widths that are multiples of the alignment up to the bound end at this one. */
  function LargestMultiple(alignment: int): int
    requires 0 < alignment
  {
    MAX_WIDTH_HEIGHT - MAX_WIDTH_HEIGHT % alignment
  }

  lemma LargestIsMultiple(alignment: int)
    requires 0 < alignment
    ensures LargestMultiple(alignment) % alignment == 0 && LargestMultiple(alignment) <= MAX_WIDTH_HEIGHT
  {
    var q := MAX_WIDTH_HEIGHT / alignment;
    assert LargestMultiple(alignment) == q * alignment;
    MultipleMod(q, alignment);
  }

  lemma NoneLarger(n: int, alignment: int)
    requires 0 < alignment && n % alignment == 0 && n <= MAX_WIDTH_HEIGHT
    ensures n <= LargestMultiple(alignment)
  {
    var q, m := MAX_WIDTH_HEIGHT / alignment, n / alignment;
    assert n == m * alignment && LargestMultiple(alignment) == q * alignment;
    if q < m {
      MulMono(q + 1, m, alignment);
    }
  }

  lemma AlignsWithin(value: int, alignment: int)
    requires 0 <= value && 0 < alignment <= 16
    ensures var r := AlignUp(value, alignment);
      r.Some? && r.value <= MAX_WIDTH_HEIGHT <==> value <= LargestMultiple(alignment)
  {
    hide AlignUp, LargestMultiple;
    LargestIsMultiple(alignment);
    var r := AlignUp(value, alignment);
    if r.Some? && r.value <= MAX_WIDTH_HEIGHT {
      NoneLarger(r.value, alignment);
    }
  }

  lemma AlignmentRange(f: Format, u: Usage)
    ensures Alignment(f, u).Some? <==> f != Unknown
    ensures Bpp(f).Some? <==> f != Unknown
    ensures f != Unknown ==> 0 < Alignment(f, u).value.0 <= 16 && 0 < Alignment(f, u).value.1 <= 16
  {
  }

  /** A request gets a size exactly when its format is known, its dimensions are not negative, and aligned ones of at
      most 8191 are large enough. */
  lemma CalcAccepts(width: int, height: int, f: Format, u: Usage)
    ensures CalcBufSize(width, height, f, u).Some? <==>
      && f != Unknown && 0 <= width && 0 <= height
      && width <= LargestMultiple(Alignment(f, u).value.0) && height <= LargestMultiple(Alignment(f, u).value.1)
  {
    AlignmentRange(f, u);
    if f != Unknown && 0 <= width && 0 <= height {
      AlignsWithin(width, Alignment(f, u).value.0);
      AlignsWithin(height, Alignment(f, u).value.1);
    }
    hide AlignUp, LargestMultiple, Alignment, Bpp;
  }

  /** What the lines of a buffer of independent pixels must be multiples of, in bytes: 8 for textures, render targets
      and, unless pixels are 16 bits, the composer; 4 for 24-bit pixels in 2D operations. */
  function LineUnit(f: Format, u: Usage): int {
    if u.hwTexture || u.hwRender || (u.hwComposer && Bpp(f) != Some(16)) then 8
    else if u.hw2d && Bpp(f) == Some(24) then 4
    else 1
  }

  /** Where pixels are independent, a width is aligned exactly if the lines are multiples of that unit, and any height
      is; a multi-band buffer is aligned exactly if it consists of whole macroblocks of 16 by 16; and for the other
      subsampled formats every dimension that chroma is halved in is even when aligned, and widths of planar YV12 are
      multiples of 16. */
  lemma AlignmentMeans(f: Format, u: Usage, n: nat)
    requires f != Unknown
    ensures var (w, h) := Alignment(f, u).value;
      && (IndependentPixels(f) ==> (n % w == 0 <==> n * Bpp(f).value / 8 % LineUnit(f, u) == 0) && n % h == 0)
      && (f == YCBCR42XMBN ==> (n % w == 0 <==> n % 16 == 0) && (n % h == 0 <==> n % 16 == 0))
      && (f == YV12 ==> (n % w == 0 <==> n % 16 == 0) && (n % h == 0 <==> n % 2 == 0))
      && (!IndependentPixels(f) && f != YCBCR42XMBN && f != YV12 ==>
            && (n % w == 0 <==> n % 2 == 0)
            && (n % h == 0 <==> Bpp(f) == Some(16) || n % 2 == 0))
  {
    LinesOf(n);
  }

  lemma Lines32(n: nat)
    ensures n * 32 / 8 % 8 == 0 <==> n % 2 == 0
  {
    var q, r := n / 2, n % 2;
    assert n * 32 / 8 == 8 * q + 4 * r;
  }

  lemma Lines16(n: nat)
    ensures n * 16 / 8 % 8 == 0 <==> n % 4 == 0
  {
    var q, r := n / 4, n % 4;
    assert n * 16 / 8 == 8 * q + 2 * r;
  }

  lemma Lines24(n: nat)
    ensures n * 24 / 8 % 8 == 0 <==> n % 8 == 0
  {
    var q, r := n / 8, n % 8;
    assert n * 24 / 8 == 8 * (3 * q) + 3 * r;
  }

  lemma Lines24Even(n: nat)
    ensures n * 24 / 8 % 4 == 0 <==> n % 4 == 0
  {
    var q, r := n / 4, n % 4;
    assert n * 24 / 8 == 4 * (3 * q) + 3 * r;
  }

  /** Lines of 2, 3 or 4 bytes a pixel are a multiple of 8 bytes for every fourth, eighth and second width. */
  lemma LinesOf(n: nat)
    ensures n * 32 / 8 % 8 == 0 <==> n % 2 == 0
    ensures n * 16 / 8 % 8 == 0 <==> n % 4 == 0
    ensures n * 24 / 8 % 8 == 0 <==> n % 8 == 0
    ensures n * 24 / 8 % 4 == 0 <==> n % 4 == 0
  {
    Lines32(n);
    Lines16(n);
    Lines24(n);
    Lines24Even(n);
  }

  lemma MultipleOf(n: int, m: int)
    requires 0 < m && n % m == 0
    ensures n == m * (n / m)
  {
  }

  lemma ChromaStrideOf(w: int)
    requires 0 <= w && w % 16 == 0
    ensures ChromaStride(w) == if w % 32 == 0 then w / 2 else w / 2 + 8
    ensures w % 32 == 0 || w % 32 == 16
  {
    var m := w / 16;
    assert w == 16 * m;
    if m % 2 == 0 {
      assert w == 32 * (m / 2);
    } else {
      assert w == 32 * (m / 2) + 16;
    }
  }

  lemma AlignedChroma(w: int)
    requires 0 <= w <= MAX_WIDTH_HEIGHT && w % 16 == 0
    ensures AlignUp(w / 2, 16) == Some(ChromaStride(w))
  {
    ChromaStrideOf(w);
    var half := w / 2;
    if w % 32 == 0 {
      assert half % 16 == 0;
    } else {
      assert half % 16 == 8;
    }
  }

  /** What the size computation comes to, case by case. */
  lemma CalcShape(width: int, height: int, f: Format, u: Usage)
    requires CalcBufSize(width, height, f, u).Some?
    ensures Bpp(f).Some?
    ensures var r := CalcBufSize(width, height, f, u).value; var bpp := Bpp(f).value;
      && 0 <= r.width <= MAX_WIDTH_HEIGHT && 0 <= r.height <= MAX_WIDTH_HEIGHT
      && (bpp == 12 ==> r.width % 2 == 0)
      && (f.YV12? ==> r.width % 16 == 0 && r.height % 2 == 0
                      && r.bytes == (ChromaStride(r.width) + r.width / 2) * r.height * 12 / 8)
      && (!f.YV12? ==> r.bytes == r.width * r.height * bpp / 8)
  {
    hide AlignUp, ChromaStride, Least;
    CalcDimensions(width, height, f, u);
    LeastMultiple(width, Alignment(f, u).value.0, CalcBufSize(width, height, f, u).value.width);
    LeastMultiple(height, Alignment(f, u).value.1, CalcBufSize(width, height, f, u).value.height);
    var w := CalcBufSize(width, height, f, u).value.width;
    if f.YV12? {
      AlignedChroma(w);
    } else if f.YCBCR42XMBN? {
      MultipleOf(w, 16);
    }
  }

  lemma LeastMultiple(value: int, alignment: int, result: int)
    requires 0 < alignment && Least(value, alignment, result)
    ensures result % alignment == 0
  {
  }

  /** No product of the size computation leaves the range of int. */
  lemma CalcFits(width: int, height: int, f: Format, u: Usage)
    requires CalcBufSize(width, height, f, u).Some?
    ensures var r := CalcBufSize(width, height, f, u).value;
      && r.width * r.height <= INT_MAX
      && r.width * r.height * Bpp(f).value <= INT_MAX
      && (f.YV12? ==> (ChromaStride(r.width) + r.width / 2) * r.height * 12 <= INT_MAX)
      && 0 <= r.bytes <= INT_MAX
  {
    CalcShape(width, height, f, u);
    hide CalcBufSize, ChromaStride;
    var r := CalcBufSize(width, height, f, u).value;
    ProductFits(r.width, r.height);
    BitsFit(r.width * r.height, Bpp(f).value);
    if f.YV12? {
      ChromaStrideOf(r.width);
      ProductFits(ChromaStride(r.width) + r.width / 2, r.height);
      BitsFit((ChromaStride(r.width) + r.width / 2) * r.height, 12);
    }
  }

  lemma BitsFit(n: int, bpp: int)
    requires 0 <= n <= MAX_WIDTH_HEIGHT * MAX_WIDTH_HEIGHT && 0 <= bpp <= 32
    ensures 0 <= n * bpp <= INT_MAX
  {
    MulMono(bpp, 32, n);
    MulMono(0, n, bpp);
  }

  lemma ProductFits(w: int, h: int)
    requires 0 <= w <= MAX_WIDTH_HEIGHT && 0 <= h <= MAX_WIDTH_HEIGHT
    ensures 0 <= w * h <= MAX_WIDTH_HEIGHT * MAX_WIDTH_HEIGHT
  {
    MulMono(w, MAX_WIDTH_HEIGHT, h);
    MulMono(h, MAX_WIDTH_HEIGHT, MAX_WIDTH_HEIGHT);
    MulMono(0, w, h);
  }

  /** 8191 is the largest bound on both dimensions that keeps 32 bits per pixel within an int. */
  lemma LargestBound(bound: nat)
    ensures (forall w: nat, h: nat :: w <= bound && h <= bound ==> w * h * 32 <= INT_MAX) <==> bound <= MAX_WIDTH_HEIGHT
  {
    if bound <= MAX_WIDTH_HEIGHT {
      forall w: nat, h: nat | w <= bound && h <= bound
        ensures w * h * 32 <= INT_MAX
      {
        ProductFits(w, h);
      }
    } else {
      var n: nat := 8192;
      assert n <= bound && n * n * 32 > INT_MAX;
    }
  }

  /** The allocation is never smaller than the size reported later; it is larger exactly for a YV12 buffer, not empty,
      whose width is 16 more than a multiple of 32. */
  lemma AllocatedCoversReported(width: int, height: int, f: Format, u: Usage)
    requires CalcBufSize(width, height, f, u).Some?
    ensures var r := CalcBufSize(width, height, f, u).value; var reported := GetBufSize(r.width, r.height, f).value;
      && reported <= r.bytes
      && (reported < r.bytes <==> f.YV12? && r.width % 32 == 16 && 0 < r.height)
      && r.bytes == reported + if f.YV12? && r.width % 32 == 16 then 12 * r.height else 0
  {
    CalcShape(width, height, f, u);
    hide CalcBufSize, ChromaStride;
    var r := CalcBufSize(width, height, f, u).value;
    if f.YV12? {
      ChromaStrideOf(r.width);
      MultipleOf(r.width, 2);
      if r.width % 32 == 16 {
        WiderByEight(r.width, r.height);
      }
    }
  }

  lemma WiderByEight(w: int, h: int)
    ensures (w + 8) * h * 12 / 8 == w * h * 12 / 8 + 12 * h
  {
    assert (w + 8) * h * 12 == w * h * 12 + 8 * (12 * h);
  }

  /** The size documented for YV12: a luma plane and two chroma planes of half height. */
  function DocumentedYV12(stride: int, height: int): int {
    stride * height + 2 * (ChromaStride(stride) * height / 2)
  }

  lemma AllocatedCoversYV12(width: int, height: int, u: Usage)
    ensures var r := CalcBufSize(width, height, YV12, u);
      r.Some? ==> DocumentedYV12(r.value.width, r.value.height) <= r.value.bytes
  {
    if CalcBufSize(width, height, YV12, u).Some? {
      CoversYV12(width, height, u);
    }
  }

  lemma CoversYV12(width: int, height: int, u: Usage)
    requires CalcBufSize(width, height, YV12, u).Some?
    ensures var r := CalcBufSize(width, height, YV12, u).value; DocumentedYV12(r.width, r.height) <= r.bytes
  {
    CalcShape(width, height, YV12, u);
    hide CalcBufSize, ChromaStride;
    var r := CalcBufSize(width, height, YV12, u).value;
    ChromaStrideOf(r.width);
    MultipleOf(r.width, 2);
    MultipleOf(r.height, 2);
    YV12Sizes(r.width / 2, r.height / 2, ChromaStride(r.width));
  }

  lemma YV12Sizes(w: int, h: int, c: int)
    requires 0 <= w <= c && 0 <= h
    ensures (2 * w) * (2 * h) + 2 * (c * (2 * h) / 2) <= (c + w) * (2 * h) * 12 / 8
  {
    assert c * (2 * h) == 2 * (c * h);
    assert (c + w) * (2 * h) * 12 == 24 * (c * h + w * h);
    assert (2 * w) * (2 * h) == 4 * (w * h);
    MulMono(w, c, h);
  }

  // ----- set_up_hwmem_region

  /** Blocks of `size` bytes from `offset` on, of each of which the bytes from `start` to `end` are in the region. */
  datatype Region = Region(offset: int, count: int, start: int, end: int, size: int)

  ghost predicate InRegion(r: Region, b: int) {
    exists k :: 0 <= k < r.count && InBlock(r, k, b)
  }

  predicate InBlock(r: Region, k: int, b: int) {
    r.offset + k * r.size + r.start <= b < r.offset + k * r.size + r.end
  }

  datatype Area = Area(left: int, top: int, width: int, height: int)

  predicate Accepted(a: Area, bufWidth: int, bufHeight: int) {
    && 0 <= a.left && 0 <= a.top && 0 <= a.width && 0 <= a.height
    && a.left <= INT_MAX - a.width && a.left + a.width <= bufWidth
    && a.top <= INT_MAX - a.height && a.top + a.height <= bufHeight
  }

  function SetUpRegion(a: Area, bufWidth: int, bufHeight: int, f: Format): Option<Region> {
    if !Accepted(a, bufWidth, bufHeight) then None
    else match Bpp(f)
      case None => None
      case Some(bpp) =>
        var actual := if IndependentPixels(f) then a else Area(0, 0, bufWidth, bufHeight);
        var pitch := bufWidth * bpp / 8;
        Some(Region(actual.top * pitch, actual.height, actual.left * bpp / 8, (actual.left + actual.width) * bpp / 8,
                    pitch))
  }

  /** A rectangle gets a region exactly when the format is known and the rectangle lies in the buffer. */
  lemma RegionAccepts(a: Area, bufWidth: int, bufHeight: int, f: Format)
    requires bufWidth <= INT_MAX && bufHeight <= INT_MAX
    ensures SetUpRegion(a, bufWidth, bufHeight, f).Some? <==>
      && f != Unknown
      && 0 <= a.left && 0 <= a.width && a.left + a.width <= bufWidth
      && 0 <= a.top && 0 <= a.height && a.top + a.height <= bufHeight
  {
  }

  /** Byte b belongs to pixel (x, y) of a buffer with the given pitch and bytes per pixel. */
  predicate InPixel(x: int, y: int, pitch: int, bytes: int, b: int) {
    y * pitch + x * bytes <= b < y * pitch + (x + 1) * bytes
  }

  ghost predicate InArea(a: Area, pitch: int, bytes: int, b: int) {
    exists x, y :: a.left <= x < a.left + a.width && a.top <= y < a.top + a.height && InPixel(x, y, pitch, bytes, b)
  }

  lemma RowOf(k: int, top: int, pitch: int)
    ensures (top + k) * pitch == top * pitch + k * pitch
  {
  }

  /** For the formats with independent pixels the region is exactly the bytes of the pixels of the rectangle. */
  lemma RegionIsPixels(a: Area, bufWidth: int, bufHeight: int, f: Format, b: int)
    requires SetUpRegion(a, bufWidth, bufHeight, f).Some? && IndependentPixels(f)
    ensures var bytes := Bpp(f).value / 8;
      InRegion(SetUpRegion(a, bufWidth, bufHeight, f).value, b) <==> InArea(a, bufWidth * bytes, bytes, b)
  {
    var bytes := Bpp(f).value / 8;
    var pitch := bufWidth * bytes;
    RegionShape(a, bufWidth, bufHeight, f);
    hide SetUpRegion, PixelRegion, InRegion, InArea;
    if InRegion(PixelRegion(a, pitch, bytes), b) {
      RegionInPixels(a, pitch, bytes, b);
    }
    if InArea(a, pitch, bytes, b) {
      PixelsInRegion(a, pitch, bytes, b);
    }
  }

  function PixelRegion(a: Area, pitch: int, bytes: int): Region {
    Region(a.top * pitch, a.height, a.left * bytes, (a.left + a.width) * bytes, pitch)
  }

  lemma EightTimes(x: int, bytes: int)
    ensures x * (8 * bytes) / 8 == x * bytes
  {
    assert x * (8 * bytes) == 8 * (x * bytes);
  }

  lemma RegionShape(a: Area, bufWidth: int, bufHeight: int, f: Format)
    requires SetUpRegion(a, bufWidth, bufHeight, f).Some? && IndependentPixels(f)
    ensures var bytes := Bpp(f).value / 8;
      && 0 < bytes && SetUpRegion(a, bufWidth, bufHeight, f).value == PixelRegion(a, bufWidth * bytes, bytes)
  {
    var bytes := Bpp(f).value / 8;
    assert Bpp(f).value == 8 * bytes;
    EightTimes(bufWidth, bytes);
    EightTimes(a.left, bytes);
    EightTimes(a.left + a.width, bytes);
  }

  lemma RegionInPixels(a: Area, pitch: int, bytes: int, b: int)
    requires 0 < bytes && InRegion(PixelRegion(a, pitch, bytes), b)
    ensures InArea(a, pitch, bytes, b)
  {
    var r := PixelRegion(a, pitch, bytes);
    var k :| 0 <= k < r.count && InBlock(r, k, b);
    RowOf(k, a.top, pitch);
    var x := ColumnOf(b - (a.top + k) * pitch, bytes, a.left, a.left + a.width);
    assert InPixel(x, a.top + k, pitch, bytes, b);
  }

  lemma PixelsInRegion(a: Area, pitch: int, bytes: int, b: int)
    requires 0 < bytes && InArea(a, pitch, bytes, b)
    ensures InRegion(PixelRegion(a, pitch, bytes), b)
  {
    var x, y :| a.left <= x < a.left + a.width && a.top <= y < a.top + a.height && InPixel(x, y, pitch, bytes, b);
    RowOf(y - a.top, a.top, pitch);
    MulMono(a.left, x, bytes);
    MulMono(x + 1, a.left + a.width, bytes);
    assert InBlock(PixelRegion(a, pitch, bytes), y - a.top, b);
  }

  lemma ColumnOf(n: int, bytes: int, lo: int, hi: int) returns (x: int)
    requires 0 < bytes && lo * bytes <= n < hi * bytes
    ensures lo <= x < hi && x * bytes <= n < (x + 1) * bytes
  {
    x := n / bytes;
    assert n == x * bytes + n % bytes;
    if x < lo {
      MulMono(x + 1, lo, bytes);
    }
    if hi <= x {
      MulMono(hi, x, bytes);
    }
  }

  lemma PitchExact(width: int, height: int, f: Format, u: Usage)
    requires CalcBufSize(width, height, f, u).Some?
    ensures var r := CalcBufSize(width, height, f, u).value; var bpp := Bpp(f).value;
      && r.width * bpp == 8 * (r.width * bpp / 8)
      && GetBufSize(r.width, r.height, f).value == r.height * (r.width * bpp / 8)
  {
    CalcShape(width, height, f, u);
    hide CalcBufSize;
    var r := CalcBufSize(width, height, f, u).value;
    WholeBytes(r.width, r.height, Bpp(f).value);
  }

  lemma WholeBytes(w: int, h: int, bpp: int)
    requires bpp in {12, 16, 24, 32} && (bpp == 12 ==> w % 2 == 0)
    ensures w * bpp == 8 * (w * bpp / 8)
    ensures w * h * bpp / 8 == h * (w * bpp / 8)
  {
    if bpp == 12 {
      MultipleOf(w, 2);
    }
    var pitch := w * bpp / 8;
    assert w * bpp == 8 * pitch;
    assert w * h * bpp == w * bpp * h;
    assert w * bpp * h == 8 * (h * pitch) by { Regroup(pitch, h); }
  }

  lemma Regroup(a: int, b: int)
    ensures 8 * a * b == 8 * (b * a)
  {
  }

  /** Blocks taken whole, one after the other from the start, fill count * size bytes. */
  lemma WholeBlocks(r: Region, b: int)
    requires r.offset == 0 && r.start == 0 && r.end == r.size && 0 <= r.size && 0 <= r.count
    ensures InRegion(r, b) <==> 0 <= b < r.count * r.size
  {
    if InRegion(r, b) {
      var k :| 0 <= k < r.count && InBlock(r, k, b);
      MulMono(k + 1, r.count, r.size);
      MulMono(0, k, r.size);
    }
    if 0 <= b < r.count * r.size {
      var k := ColumnOf(b, if r.size == 0 then 1 else r.size, 0, r.count);
      assert InBlock(r, k, b);
    }
  }

  /** A region whose blocks are in order lies between its offset and the end of its last block. */
  lemma BlocksInside(r: Region, b: int)
    requires 0 <= r.start <= r.end <= r.size && InRegion(r, b)
    ensures r.offset <= b < r.offset + r.count * r.size
  {
    var k :| 0 <= k < r.count && InBlock(r, k, b);
    MulMono(0, k, r.size);
    MulMono(k + 1, r.count, r.size);
  }

  /** For the other formats it is exactly the whole reported buffer. */
  lemma RegionIsBuffer(a: Area, width: int, height: int, f: Format, u: Usage, b: int)
    requires CalcBufSize(width, height, f, u).Some? && !IndependentPixels(f)
    requires var s := CalcBufSize(width, height, f, u).value; SetUpRegion(a, s.width, s.height, f).Some?
    ensures var s := CalcBufSize(width, height, f, u).value;
      InRegion(SetUpRegion(a, s.width, s.height, f).value, b) <==> 0 <= b < GetBufSize(s.width, s.height, f).value
  {
    PitchExact(width, height, f, u);
    CalcShape(width, height, f, u);
    hide CalcBufSize, GetBufSize, InRegion;
    var s := CalcBufSize(width, height, f, u).value;
    WholeBlocks(SetUpRegion(a, s.width, s.height, f).value, b);
  }

  lemma RegionNumbers(a: Area, w: int, h: int, bpp: int)
    requires Accepted(a, w, h) && 0 <= w && 0 <= h && bpp in {12, 16, 24, 32}
    ensures var pitch := w * bpp / 8;
      && 0 <= a.left * bpp / 8 <= (a.left + a.width) * bpp / 8 <= pitch
      && 0 <= a.top * pitch && a.top * pitch + a.height * pitch <= h * pitch
  {
    var pitch := w * bpp / 8;
    MulMono(0, a.left, bpp);
    MulMono(a.left, a.left + a.width, bpp);
    MulMono(a.left + a.width, w, bpp);
    MulMono(0, a.top, pitch);
    MulMono(a.top + a.height, h, pitch);
    RowOf(a.height, a.top, pitch);
  }

  /** The region of any accepted rectangle of an allocated buffer lies inside the reported size, and none of its
      numbers leaves the range of int. */
  lemma RegionInsideBuffer(a: Area, width: int, height: int, f: Format, u: Usage, b: int)
    requires CalcBufSize(width, height, f, u).Some?
    requires var s := CalcBufSize(width, height, f, u).value; SetUpRegion(a, s.width, s.height, f).Some?
    ensures var s := CalcBufSize(width, height, f, u).value; var r := SetUpRegion(a, s.width, s.height, f).value;
      && 0 <= r.offset && 0 <= r.start <= r.end <= r.size && 0 <= r.count
      && r.offset + r.count * r.size <= GetBufSize(s.width, s.height, f).value <= INT_MAX
      && (InRegion(r, b) ==> 0 <= b < GetBufSize(s.width, s.height, f).value)
  {
    PitchExact(width, height, f, u);
    CalcShape(width, height, f, u);
    CalcFits(width, height, f, u);
    AllocatedCoversReported(width, height, f, u);
    hide CalcBufSize, GetBufSize, InRegion;
    var s := CalcBufSize(width, height, f, u).value;
    RegionNumbers(if IndependentPixels(f) then a else Area(0, 0, s.width, s.height), s.width, s.height, Bpp(f).value);
    if InRegion(SetUpRegion(a, s.width, s.height, f).value, b) {
      BlocksInside(SetUpRegion(a, s.width, s.height, f).value, b);
    }
  }
}
