/**
 * The demo program: a 384x118 RGB565 frame buffer that is cleared, given a
 * 50-pixel-wide vertical bar, and handed to the display once per bar
 * position, the bar sweeping across the frame twice.
 *
 * Each frame handed to `dispmanx_update` is recorded as a snapshot of the
 * buffer; what the display does with it is modelled in module Dispmanx.
 */
module Demo {
  const SrcWidth: int := 384
  const SrcHeight: int := 118
  const BarWidth: int := 50
  const BarColour: bv16 := 0x0FF0
  /** The number of sweeps of the bar across the frame. */
  const Sweeps: int := 2

  /** Set the first `width * height` pixels of the buffer to 0. */
  method ClearScreen(width: int, height: int, pixels: array<bv16>)
    requires width * height <= pixels.Length
    modifies pixels
    ensures forall n :: 0 <= n < width * height ==> pixels[n] == 0
    ensures forall n :: 0 <= n < pixels.Length && width * height <= n ==> pixels[n] == old(pixels[n])
  {
    var size := width * height;
    var i := 0;
    while i < size
      invariant 0 <= i <= pixels.Length
      invariant i == 0 || i <= size
      invariant forall n :: 0 <= n < i ==> pixels[n] == 0
      invariant forall n :: i <= n < pixels.Length ==> pixels[n] == old(pixels[n])
    {
      pixels[i] := 0;
      i := i + 1;
    }
  }

  /** The colour of column `c` when the bar starts at column `j`. */
  function BarPixel(j: int, c: int): bv16
  {
    if j <= c < j + BarWidth then BarColour else 0
  }

  /** The pixel at row `r` and column `c` of a frame. */
  function Pixel(f: seq<bv16>, r: int, c: int): bv16
    requires |f| == SrcWidth * SrcHeight
    requires 0 <= r < SrcHeight && 0 <= c < SrcWidth
  {
    f[r * SrcWidth + c]
  }

  /** Different rows or columns are different buffer indices. */
  lemma CellsAreDistinct(r: int, c: int, r': int, c': int)
    requires 0 <= c < SrcWidth && 0 <= c' < SrcWidth
    requires r != r' || c != c'
    ensures r * SrcWidth + c != r' * SrcWidth + c'
  {
  }

  /** In every row, columns j..j+49 hold the bar colour and every other pixel is 0. */
  ghost predicate IsBarFrame(f: seq<bv16>, j: int)
  {
    && |f| == SrcWidth * SrcHeight
    && forall r, c :: 0 <= r < SrcHeight && 0 <= c < SrcWidth ==> Pixel(f, r, c) == BarPixel(j, c)
  }

  /** The row-and-column description of a bar frame fixes every pixel of the buffer. */
  lemma BarFrameUnique(f: seq<bv16>, g: seq<bv16>, j: int)
    requires IsBarFrame(f, j) && IsBarFrame(g, j)
    ensures f == g
  {
    forall n | 0 <= n < |f| ensures f[n] == g[n] {
      var r, c := n / SrcWidth, n % SrcWidth;
      assert n == r * SrcWidth + c;
      assert Pixel(f, r, c) == Pixel(g, r, c);
    }
  }

  /**
   * The demo's frame loop.  Returns the frames in the order they are handed
   * to the display: two sweeps of `SrcWidth - BarWidth` frames each, frame
   * `n` with the bar at column `n % (SrcWidth - BarWidth)`.  Every write of
   * the loop stays inside the `SrcWidth * SrcHeight` buffer.
   */
  method BarDemo() returns (frames: seq<seq<bv16>>)
    ensures |frames| == Sweeps * (SrcWidth - BarWidth)
    ensures forall n :: 0 <= n < |frames| ==> IsBarFrame(frames[n], n % (SrcWidth - BarWidth))
  {
    var pixels := new bv16[SrcWidth * SrcHeight];
    ClearScreen(SrcWidth, SrcHeight, pixels);
    frames := [];
    for m := 0 to Sweeps
      invariant |frames| == m * (SrcWidth - BarWidth)
      invariant forall n :: 0 <= n < |frames| ==> IsBarFrame(frames[n], n % (SrcWidth - BarWidth))
    {
      for j := 0 to SrcWidth - BarWidth
        invariant |frames| == m * (SrcWidth - BarWidth) + j
        invariant forall n :: 0 <= n < |frames| ==> IsBarFrame(frames[n], n % (SrcWidth - BarWidth))
      {
        ClearScreen(SrcWidth, SrcHeight, pixels);
        for i := 0 to SrcHeight
          invariant forall r, c :: 0 <= r < SrcHeight && 0 <= c < SrcWidth ==>
            Pixel(pixels[..], r, c) == if r < i then BarPixel(j, c) else 0
        {
          for k := 0 to BarWidth
            invariant forall r, c :: 0 <= r < SrcHeight && 0 <= c < SrcWidth ==>
              Pixel(pixels[..], r, c) == if r < i || (r == i && c < j + k) then BarPixel(j, c) else 0
          {
            ghost var before := pixels[..];
            pixels[i * SrcWidth + j + k] := BarColour;
            forall r, c | 0 <= r < SrcHeight && 0 <= c < SrcWidth
              ensures Pixel(pixels[..], r, c) == if r < i || (r == i && c < j + k + 1) then BarPixel(j, c) else 0
            {
              if r != i || c != j + k {
                CellsAreDistinct(r, c, i, j + k);
                assert Pixel(pixels[..], r, c) == Pixel(before, r, c);
              }
            }
          }
        }
        assert IsBarFrame(pixels[..], j);
        frames := frames + [pixels[..]];
      }
    }
  }
}
