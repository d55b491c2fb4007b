/**
 * The integer arithmetic of DispmanX surface setup: the pixel format chosen
 * from the bit depth, the visible width obtained from the pitch, and the
 * destination, bitmap and source rectangles of the surface's element.
 *
 * The destination width is the display height times the aspect ratio,
 * converted to `int`; it enters here as the integer `scaledWidth`.
 */
module SurfaceSetup {
  import opened Wrappers

  /** C `int`. */
  type Int32 = x: int | -0x8000_0000 <= x < 0x8000_0000

  /**
   * A display dimension as the firmware reports it (`unsigned int`).  Both
   * dimensions are assumed below 2^31: the firmware reports real screen
   * sizes, and setup stores the height into an `int`.
   */
  type DisplayDim = x: nat | x < 0x8000_0000

  datatype PixelFormat = Image8bpp | ImageRGB565 | ImageXRGB8888

  datatype SetupError = UnsupportedBpp(bpp: int)

  /** A rectangle as `vc_dispmanx_rect_set` fills it in. */
  datatype Rect = Rect(x: int, y: int, width: int, height: int)

  /** Everything setup computes about a surface before it allocates its buffers. */
  datatype Geometry = Geometry(
    pixformat: PixelFormat,
    visibleWidth: int,
    dstRect: Rect,
    bmpRect: Rect,
    srcRect: Rect)

  function BitsPerPixel(f: PixelFormat): int
  {
    match f
    case Image8bpp => 8
    case ImageRGB565 => 16
    case ImageXRGB8888 => 32
  }

  /** The switch on the bit depth: 8, 16 and 32 are supported, every other depth is refused. */
  function PixelFormatOf(bpp: int): (r: Option<PixelFormat>)
    ensures r.Some? <==> bpp == 8 || bpp == 16 || bpp == 32
    ensures r.Some? ==> BitsPerPixel(r.value) == bpp
  {
    match bpp
    case 8 => Some(Image8bpp)
    case 16 => Some(ImageRGB565)
    case 32 => Some(ImageXRGB8888)
    case _ => None
  }

  /** C's `/` on `int` operands: the quotient is truncated toward zero. */
  function CDiv(a: int, b: int): int
    requires b > 0
  {
    if a >= 0 then a / b else -((-a) / b)
  }

  /**
   * `visible_pitch / (bpp / 8)`: the number of whole pixels in one visible
   * scanline of `visiblePitch` bytes, truncated toward zero.
   */
  function VisibleWidth(visiblePitch: Int32, f: PixelFormat): (w: int)
    ensures var b := BitsPerPixel(f) / 8;
      && (visiblePitch >= 0 ==> 0 <= w * b <= visiblePitch < w * b + b)
      && (visiblePitch < 0 ==> w <= 0 && w * b - b < visiblePitch <= w * b)
  {
    match f
    case Image8bpp => CDiv(visiblePitch, 1)
    case ImageRGB565 => CDiv(visiblePitch, 2)
    case ImageXRGB8888 => CDiv(visiblePitch, 4)
  }

  /** An `int` converted to `unsigned int`, as C does when it compares it with an unsigned operand. */
  function AsUnsigned(x: Int32): nat
  {
    if x < 0 then x + 0x1_0000_0000 else x
  }

  /**
   * The destination rectangle: full display height, the scaled width clamped
   * to the display width, centred horizontally.  The clamp compares the
   * `int` width with the unsigned display width, so a negative width is
   * clamped as well.
   */
  function DestinationRect(dispWidth: DisplayDim, dispHeight: DisplayDim, scaledWidth: Int32): (r: Rect)
    ensures 0 <= r.x && 0 <= r.width && r.x + r.width <= dispWidth
    ensures r.y == 0 && r.height == dispHeight
    ensures var right := dispWidth - (r.x + r.width); r.x <= right <= r.x + 1
    ensures 0 <= scaledWidth <= dispWidth ==> r.width == scaledWidth
    ensures scaledWidth < 0 || scaledWidth > dispWidth ==> r.width == dispWidth
  {
    var dstWidth: int := if AsUnsigned(scaledWidth) > dispWidth then dispWidth else scaledWidth;
    var dstHeight: int := dispHeight;
    // both differences are taken on unsigned operands; neither can go below zero here
    Rect((dispWidth - dstWidth) / 2, (dispHeight - dstHeight) / 2, dstWidth, dstHeight)
  }

  /** `x << 16`: a whole number of pixels as a 16.16 fixed-point value. */
  function ToFixed16(x: int): int
  {
    x * 0x10000
  }

  /**
   * The computation of surface setup up to the allocation of the buffers.
   * An unsupported bit depth stops setup before any page is allocated.
   */
  function SurfaceGeometry(
    srcWidth: Int32, srcHeight: Int32, visiblePitch: Int32, bpp: Int32,
    scaledWidth: Int32, dispWidth: DisplayDim, dispHeight: DisplayDim): (r: Result<Geometry, SetupError>)
    ensures r.Failure? <==> !(bpp == 8 || bpp == 16 || bpp == 32)
    ensures r.Failure? ==> r.error == UnsupportedBpp(bpp)
    ensures r.Success? ==>
      var g := r.value;
      && BitsPerPixel(g.pixformat) == bpp
      && g.bmpRect == Rect(0, 0, srcWidth, srcHeight)
      && g.srcRect.x == 0 && g.srcRect.y == 0
      && g.srcRect.width % 0x10000 == 0 && g.srcRect.width / 0x10000 == g.bmpRect.width
      && g.srcRect.height % 0x10000 == 0 && g.srcRect.height / 0x10000 == g.bmpRect.height
      && g.visibleWidth == VisibleWidth(visiblePitch, g.pixformat)
      && g.dstRect == DestinationRect(dispWidth, dispHeight, scaledWidth)
      && 0 <= g.dstRect.x && g.dstRect.x + g.dstRect.width <= dispWidth
      && g.dstRect.y == 0 && g.dstRect.height == dispHeight
  {
    match PixelFormatOf(bpp)
    case None => Failure(UnsupportedBpp(bpp))
    case Some(f) =>
      Success(Geometry(
        f,
        VisibleWidth(visiblePitch, f),
        DestinationRect(dispWidth, dispHeight, scaledWidth),
        Rect(0, 0, srcWidth, srcHeight),
        Rect(0, 0, ToFixed16(srcWidth), ToFixed16(srcHeight))))
  }

  /** Each supported format is chosen by exactly its own bit depth. */
  lemma PixelFormatRoundTrip(f: PixelFormat)
    ensures PixelFormatOf(BitsPerPixel(f)) == Some(f)
  {
  }

  /**
   * With a 16-bit format and a visible pitch of two bytes per pixel (the
   * demo's configuration, and the blanking surface's 4-byte pitch for a
   * 2-pixel width), the visible width is the source width.
   */
  lemma SixteenBitPitchGivesSourceWidth(srcWidth: Int32, srcHeight: Int32, scaledWidth: Int32,
                                        dispWidth: DisplayDim, dispHeight: DisplayDim)
    requires 0 <= srcWidth < 0x4000_0000
    ensures var r := SurfaceGeometry(srcWidth, srcHeight, srcWidth * 2, 16, scaledWidth, dispWidth, dispHeight);
      r.Success? && r.value.visibleWidth == srcWidth && r.value.pixformat == ImageRGB565
  {
  }
}
