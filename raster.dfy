/** The pixel layout VTKJPanel.updateImage uses to turn the render window's
    RGBA bytes into an image: a pixel-interleaved sample model over
    (w+1) x (h+1) samples with four byte bands, and the affine transform that
    mirrors the raster vertically. The resampling of AffineTransformOp is
    reduced to the integer row mapping it performs with nearest-neighbour
    interpolation. */
module Raster {

  newtype byte = b: int | 0 <= b < 256

  /** Band offsets of the sample model: R, G, B, A at bytes 0, 1, 2, 3 of a pixel. */
  const BandOffsets: seq<nat> := [0, 1, 2, 3]

  /** java.awt.image.PixelInterleavedSampleModel over bytes. */
  datatype SampleModel = PixelInterleavedSampleModel(
    width: nat, height: nat, pixelStride: nat, scanlineStride: nat, bandOffsets: seq<nat>)

  /** The sample model built for a render window reporting size w x h: one
      sample per pixel of the inclusive rectangle, four bands packed into
      each pixel, rows packed one after another, filling the buffer exactly. */
  function LayoutFor(w: nat, h: nat): (sm: SampleModel)
    ensures sm.width == w + 1 && sm.height == h + 1
    ensures sm.pixelStride == |sm.bandOffsets| == 4
    ensures sm.scanlineStride == sm.width * sm.pixelStride
    ensures sm.scanlineStride * sm.height == BufferSize(w, h)
  {
    PixelInterleavedSampleModel(w + 1, h + 1, 4, Stride(w), BandOffsets)
  }

  /** Bytes per row of the layout built for a render window of width w. */
  function Stride(w: nat): nat {
    4 * (w + 1)
  }

  /** Bytes in the render window's pixel buffer for size w x h. */
  function BufferSize(w: nat, h: nat): nat {
    Stride(w) * (h + 1)
  }

  /** Position of band `b` of sample (x, y) in the data buffer, as
      ComponentSampleModel computes it. */
  function SampleOffset(sm: SampleModel, x: int, y: int, b: int): int
    requires 0 <= b < |sm.bandOffsets|
  {
    y * sm.scanlineStride + x * sm.pixelStride + sm.bandOffsets[b]
  }

  /** (x, y, b) names a byte of the (w+1) x (h+1) RGBA sample grid. */
  predicate InGrid(w: nat, h: nat, x: int, y: int, b: int) {
    0 <= x <= w && 0 <= y <= h && 0 <= b < 4
  }

  /** The sample that the byte at position i belongs to, as (x, y, band). */
  function SampleAt(w: nat, i: nat): (int, int, int) {
    ((i % Stride(w)) / 4, i / Stride(w), (i % Stride(w)) % 4)
  }

  lemma MulLe(a: nat, b: nat, c: nat)
    requires b <= c
    ensures a * b <= a * c
  {
    assert a * c - a * b == a * (c - b);
  }

  /** The only multiple of s strictly between -s and s is 0. */
  lemma MultipleBelow(s: nat, d: int)
    requires 0 - s < s * d < s
    ensures d == 0
  {
    if d >= 1 {
      MulLe(s, 1, d);
    }
  }

  /** Euclidean division of a row-major position by the row length. */
  lemma DivModRow(s: nat, q: nat, rem: nat)
    requires rem < s
    ensures (s * q + rem) / s == q && (s * q + rem) % s == rem
  {
    var n := s * q + rem;
    var q', r' := n / s, n % s;
    assert s * (q' - q) == rem - r' by {
      assert n == s * q' + r';
      assert s * q' - s * q == s * (q' - q);
    }
    MultipleBelow(s, q' - q);
  }

  /** A position below s * rows lies in a row below `rows`. */
  lemma RowBelow(s: nat, rows: nat, i: nat)
    requires 0 < s && i < s * rows
    ensures 0 <= i / s < rows
  {
    if i / s >= rows {
      MulLe(s, rows, i / s);
    }
  }

  /** Row q of `rows` rows, mirrored, still starts inside the buffer. */
  lemma MirroredRowInside(s: nat, rows: nat, q: nat, rem: nat)
    requires q < rows && rem < s
    ensures 0 <= s * (rows - 1 - q) + rem < s * rows
  {
    MulLe(s, 0, rows - 1 - q);
    MulLe(s, rows - q, rows);
    assert s * (rows - 1 - q) + s == s * (rows - q);
  }

  /** The layout stores band b of sample (x, y) at byte 4*(w+1)*y + 4*x + b,
      inside the buffer. */
  lemma LayoutOffset(w: nat, h: nat, x: int, y: int, b: int)
    requires InGrid(w, h, x, y, b)
    ensures SampleOffset(LayoutFor(w, h), x, y, b) == Stride(w) * y + (4 * x + b)
    ensures 0 <= SampleOffset(LayoutFor(w, h), x, y, b) < BufferSize(w, h)
  {
    var s := Stride(w);
    assert SampleOffset(LayoutFor(w, h), x, y, b) == s * y + (4 * x + b);
    MirroredRowInside(s, h + 1, h - y, 4 * x + b);
  }

  /** Decoding the offset of a sample gives back that sample. */
  lemma {:induction false} SampleOffsetRoundTrip(w: nat, h: nat, x: int, y: int, b: int)
    requires InGrid(w, h, x, y, b)
    ensures SampleAt(w, SampleOffset(LayoutFor(w, h), x, y, b)) == (x, y, b)
  {
    LayoutOffset(w, h, x, y, b);
    var s := Stride(w);
    DivModRow(s, y, 4 * x + b);
    DivModRow(4, x, b);
  }

  /** Splitting a position below s * rows, with rows of s = 4 * cols bytes,
      into row, column and band stays inside the grid and recombines to the
      position. */
  lemma SplitPosition(s: nat, cols: nat, rows: nat, i: nat)
    requires s == 4 * cols && 0 < cols && i < s * rows
    ensures 0 <= i / s < rows && 0 <= (i % s) / 4 < cols && 0 <= (i % s) % 4 < 4
    ensures i == s * (i / s) + (4 * ((i % s) / 4) + (i % s) % 4)
  {
    var q, rem := i / s, i % s;
    assert 0 <= rem < s && i == s * q + rem;
    assert 0 <= q < rows by {
      RowBelow(s, rows, i);
    }
    assert rem / 4 < cols by {
      RowBelow(4, cols, rem);
    }
  }

  /** Every byte of the buffer belongs to exactly one sample of the grid:
      with SampleOffsetRoundTrip, the layout is a bijection between the grid
      and the buffer positions. */
  lemma {:induction false} OffsetSampleRoundTrip(w: nat, h: nat, i: nat)
    requires i < BufferSize(w, h)
    ensures var (x, y, b) := SampleAt(w, i);
      InGrid(w, h, x, y, b) && SampleOffset(LayoutFor(w, h), x, y, b) == i
  {
    var s := Stride(w);
    SplitPosition(s, w + 1, h + 1, i);
    var x, y, b := (i % s) / 4, i / s, (i % s) % 4;
    LayoutOffset(w, h, x, y, b);
  }

  /** java.awt.geom.AffineTransform(m00, m10, m01, m11, m02, m12), with the
      integer coefficients the panel uses. */
  datatype AffineTransform = AffineTransform(m00: int, m10: int, m01: int, m11: int, m02: int, m12: int)

  function TransformX(t: AffineTransform, x: int, y: int): int {
    t.m00 * x + t.m01 * y + t.m02
  }

  function TransformY(t: AffineTransform, x: int, y: int): int {
    t.m10 * x + t.m11 * y + t.m12
  }

  /** The transform built for a render window of height h: keep x, send y to
      (h + 1) - y. */
  function MirrorTransform(h: nat): (t: AffineTransform)
    ensures forall x, y :: TransformX(t, x, y) == x && TransformY(t, x, y) == h + 1 - y
  {
    AffineTransform(1, 0, 0, -1, 0, h + 1)
  }

  /** Row of the raster that lands in row r of the mirrored image. */
  function MirrorRow(h: nat, r: int): int {
    h - r
  }

  /** The mirror transform keeps x, maps y to (h + 1) - y, and so carries the
      band [r, r + 1] of raster row r onto [h - r, h - r + 1], row h - r. */
  lemma MirrorTransformRows(h: nat, x: int, r: int)
    ensures TransformX(MirrorTransform(h), x, r) == x
    ensures TransformY(MirrorTransform(h), x, r) == (h + 1) - r
    ensures TransformY(MirrorTransform(h), x, r + 1) == MirrorRow(h, r)
    ensures TransformY(MirrorTransform(h), x, r) == MirrorRow(h, r) + 1
  {
  }

  /** Rows 0..h are exchanged among themselves, and mirroring twice is the
      identity. */
  lemma MirrorRowInvolution(h: nat, r: int)
    requires 0 <= r <= h
    ensures 0 <= MirrorRow(h, r) <= h
    ensures MirrorRow(h, MirrorRow(h, r)) == r
  {
  }

  /** Position, in a buffer of `rows` rows of s bytes, of the byte that
      lands at position i when the rows are mirrored: same place in the row,
      mirrored row. */
  function FlipRow(s: nat, rows: nat, i: nat): (j: nat)
    requires 0 < s && i < s * rows
    ensures j < s * rows
  {
    var q, rem := i / s, i % s;
    RowBelow(s, rows, i);
    assert 0 <= rem < s;
    MirroredRowInside(s, rows, q, rem);
    s * (rows - 1 - q) + rem
  }

  /** FlipRow undoes itself, so it is a bijection on the buffer. */
  lemma {:induction false} FlipRowInvolution(s: nat, rows: nat, i: nat)
    requires 0 < s && i < s * rows
    ensures FlipRow(s, rows, FlipRow(s, rows, i)) == i
  {
    RowBelow(s, rows, i);
    DivModRow(s, rows - 1 - i / s, i % s);
  }

  /** Position in the raster of the byte that lands at position i of the
      image mirrored by the transform built for a w x h render window. */
  function FlipIndex(w: nat, h: nat, i: nat): nat
    requires i < BufferSize(w, h)
  {
    FlipRow(Stride(w), h + 1, i)
  }

  /** The raster bytes after the vertical mirror of updateImage. */
  function Mirror(data: seq<byte>, w: nat, h: nat): (r: seq<byte>)
    requires |data| == BufferSize(w, h)
    ensures |r| == |data|
  {
    seq(|data|, i requires 0 <= i < |data| => data[FlipIndex(w, h, i)])
  }

  /** In the mirrored bytes, band b of sample (x, y) is band b of sample
      (x, h - y) of the raster: raster row r lands in row h - r. */
  lemma {:induction false} MirrorSample(data: seq<byte>, w: nat, h: nat, x: int, y: int, b: int)
    requires |data| == BufferSize(w, h)
    requires InGrid(w, h, x, y, b)
    ensures InGrid(w, h, x, MirrorRow(h, y), b)
    ensures 0 <= SampleOffset(LayoutFor(w, h), x, y, b) < |data|
    ensures 0 <= SampleOffset(LayoutFor(w, h), x, MirrorRow(h, y), b) < |data|
    ensures Mirror(data, w, h)[SampleOffset(LayoutFor(w, h), x, y, b)]
         == data[SampleOffset(LayoutFor(w, h), x, MirrorRow(h, y), b)]
  {
    var s := Stride(w);
    LayoutOffset(w, h, x, y, b);
    LayoutOffset(w, h, x, MirrorRow(h, y), b);
    var i := SampleOffset(LayoutFor(w, h), x, y, b);
    assert i == s * y + (4 * x + b);
    DivModRow(s, y, 4 * x + b);
    assert FlipIndex(w, h, i) == s * (h - y) + (4 * x + b);
  }

  /** Mirroring the mirrored bytes gives the raster back. */
  lemma {:induction false} MirrorInvolution(data: seq<byte>, w: nat, h: nat)
    requires |data| == BufferSize(w, h)
    ensures Mirror(Mirror(data, w, h), w, h) == data
  {
    var m := Mirror(data, w, h);
    var mm := Mirror(m, w, h);
    forall i | 0 <= i < |data|
      ensures mm[i] == data[i]
    {
      FlipRowInvolution(Stride(w), h + 1, i);
    }
  }

  /** java.awt.image.BufferedImage over interleaved RGBA bytes, top row first. */
  datatype Image = BufferedImage(width: nat, height: nat, data: seq<byte>)

  /** The image updateImage builds from a w x h render window's bytes: the
      mirrored raster over (w + 1) x (h + 1) samples. */
  function Snapshot(w: nat, h: nat, pixels: seq<byte>): (img: Image)
    requires |pixels| == BufferSize(w, h)
    ensures img.width == w + 1 && img.height == h + 1
    ensures |img.data| == BufferSize(img.width - 1, img.height - 1)
  {
    BufferedImage(w + 1, h + 1, Mirror(pixels, w, h))
  }
}
