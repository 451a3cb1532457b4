/** render/render.py: the framebuffer of W x H RGBA pixels that each pass
    adds one path-traced sample to, its normalisation and its readout. */
module Render {
  import opened Vector
  import opened Rays
  import opened Integrator

  /** The background colour and bounce limit `render_pass` traces with. */
  const Background: Vec4 := Splat4(1.0)
  const MaxDepth: int := 8

  /** The sample a pass adds to pixel (i, j): the camera ray through the
      jittered pixel position, traced with that pixel's own random draws.
      The camera, the per-pixel random offsets and the per-pixel oracles
      are given. */
  function Sample(o: (int, int) -> Oracles, camera: (real, real) -> Ray, jitter: (int, int) -> (real, real),
                  width: int, height: int, i: int, j: int): Vec4
    requires width > 1 && height > 1
  {
    Trace(o(i, j), camera(PixelCoord(i, jitter(i, j).0, width), PixelCoord(j, jitter(i, j).1, height)), Splat4(1.0), 1, MaxDepth, Background)
  }

  /** The jittered pixel position scaled to [0, 1] (the source divides by
      size - 1). */
  function PixelCoord(i: int, jit: real, size: int): real
    requires size > 1
  {
    (i as real + jit) / (size - 1) as real
  }

  lemma MulCancelLt(a: int, b: int, w: int)
    requires w > 0 && a * w < b * w
    ensures a < b
  {
    assert (b - a) * w > 0;
  }

  /** The readout row of pixel (i, j). */
  function RowOf(width: int, i: int, j: int): int { j * width + i }

  /** Row j*W + i of the readout is pixel (i, j). */
  lemma RowIndex(width: int, height: int, i: int, j: int)
    requires width > 0 && 0 <= i < width && 0 <= j < height
    ensures 0 <= RowOf(width, i, j) < width * height
    ensures RowOf(width, i, j) % width == i && RowOf(width, i, j) / width == j
  {
    var k := j * width + i;
    MulAtLeast(height - j, width);
    assert (height - j) * width == height * width - j * width;
    assert k < height * width;
    var q, r := k / width, k % width;
    assert q * width + r == k;
    assert (q - j) * width == q * width - j * width;
    assert (q - j) * width == i - r;
    MulCancelLt(q - j, 1, width);
    MulCancelLt(-1, q - j, width);
  }

  lemma MulAtLeast(a: int, w: int)
    requires a >= 1 && w > 0
    ensures a * w >= w
  {
    assert (a - 1) * w >= 0;
  }

  /** The body of `render_pass` for one pixel: the jittered camera ray,
      traced with a white background and 8 bounces. */
  method SamplePixel(o: (int, int) -> Oracles, camera: (real, real) -> Ray, jitter: (int, int) -> (real, real),
                     width: int, height: int, i: int, j: int) returns (color: Vec4)
    requires width > 1 && height > 1
    ensures color == Sample(o, camera, jitter, width, height, i, j)
  {
    var s := (i as real + jitter(i, j).0) / (width - 1) as real;
    var t := (j as real + jitter(i, j).1) / (height - 1) as real;
    assert s == PixelCoord(i, jitter(i, j).0, width) && t == PixelCoord(j, jitter(i, j).1, height);
    var ray := camera(s, t);
    ghost var queries;
    color, queries := TraceRay(o(i, j), ray, Background, MaxDepth);
  }

  /** Row k of the readout is a pixel of the buffer. */
  lemma RowPixel(width: int, height: int, k: int)
    requires width > 0 && 0 <= k < width * height
    ensures 0 <= k / width < height && 0 <= k % width < width
  {
    assert (k / width) * width <= k;
    MulCancelLt(k / width, height, width);
  }

  class Renderer {
    var imageWidth: nat
    var imageHeight: nat
    /** Pixel (i, j) is `pixelBuffer[i, j]`. */
    var pixelBuffer: array2<Vec4>

    ghost predicate Valid()
      reads this
    {
      pixelBuffer.Length0 == imageWidth && pixelBuffer.Length1 == imageHeight
    }

    /** Before the first `set_resolution` the source has no size and no
        buffer; a 0 x 0 buffer stands in for them. */
    constructor()
      ensures Valid() && imageWidth == 0 && imageHeight == 0
    {
      imageWidth, imageHeight := 0, 0;
      pixelBuffer := new Vec4[0, 0];
    }

    /** `set_resolution`: a fresh, zeroed W x H buffer. */
    method SetResolution(width: nat, height: nat)
      modifies this
      ensures Valid() && imageWidth == width && imageHeight == height && fresh(pixelBuffer)
      ensures forall i, j :: 0 <= i < width && 0 <= j < height ==> pixelBuffer[i, j] == Splat4(0.0)
    {
      imageWidth, imageHeight := width, height;
      pixelBuffer := new Vec4[width, height]((i, j) => Splat4(0.0));
    }

    /** `render_pass`: one traced sample added to every pixel. It divides
        by W - 1 and H - 1, so both must exceed 1. */
    method RenderPass(o: (int, int) -> Oracles, camera: (real, real) -> Ray, jitter: (int, int) -> (real, real))
      requires Valid() && imageWidth > 1 && imageHeight > 1
      modifies pixelBuffer
      ensures forall i, j :: 0 <= i < imageWidth && 0 <= j < imageHeight ==>
        pixelBuffer[i, j] == Add4(old(pixelBuffer[i, j]), Sample(o, camera, jitter, imageWidth, imageHeight, i, j))
    {
      var i := 0;
      while i < imageWidth
        invariant 0 <= i <= imageWidth
        invariant forall a, b :: 0 <= a < i && 0 <= b < imageHeight ==>
          pixelBuffer[a, b] == Add4(old(pixelBuffer[a, b]), Sample(o, camera, jitter, imageWidth, imageHeight, a, b))
        invariant forall a, b :: i <= a < imageWidth && 0 <= b < imageHeight ==> pixelBuffer[a, b] == old(pixelBuffer[a, b])
      {
        RenderColumn(o, camera, jitter, i);
        i := i + 1;
      }
    }

    /** The pixels (i, j) of one i, each given its sample. */
    method RenderColumn(o: (int, int) -> Oracles, camera: (real, real) -> Ray, jitter: (int, int) -> (real, real), i: nat)
      requires Valid() && imageWidth > 1 && imageHeight > 1 && i < imageWidth
      modifies pixelBuffer
      ensures forall b :: 0 <= b < imageHeight ==>
        pixelBuffer[i, b] == Add4(old(pixelBuffer[i, b]), Sample(o, camera, jitter, imageWidth, imageHeight, i, b))
      ensures forall a, b :: 0 <= a < imageWidth && a != i && 0 <= b < imageHeight ==> pixelBuffer[a, b] == old(pixelBuffer[a, b])
    {
      var w, h := imageWidth, imageHeight;
      ghost var samples := seq(h, b requires 0 <= b < h => Sample(o, camera, jitter, w, h, i, b));
      var j := 0;
      while j < imageHeight
        invariant 0 <= j <= imageHeight
        invariant forall b :: 0 <= b < j ==> pixelBuffer[i, b] == Add4(old(pixelBuffer[i, b]), samples[b])
        invariant forall b :: j <= b < imageHeight ==> pixelBuffer[i, b] == old(pixelBuffer[i, b])
        invariant forall a, b :: 0 <= a < imageWidth && a != i && 0 <= b < imageHeight ==> pixelBuffer[a, b] == old(pixelBuffer[a, b])
      {
        var color := SamplePixel(o, camera, jitter, imageWidth, imageHeight, i, j);
        assert color == samples[j];
        ghost var before := pixelBuffer[i, j];
        assert before == old(pixelBuffer[i, j]);
        label Before:
        pixelBuffer[i, j] := Add4(pixelBuffer[i, j], color);
        assert pixelBuffer[i, j] == Add4(before, color);
        assert forall a, b :: 0 <= a < w && 0 <= b < h && (a != i || b != j) ==>
          pixelBuffer[a, b] == old@Before(pixelBuffer[a, b]);
        j := j + 1;
      }
      assert forall b :: 0 <= b < h ==> samples[b] == Sample(o, camera, jitter, w, h, i, b);
    }

    /** `finish(n)`: every pixel divided by the sample count. */
    method Finish(n: int)
      requires Valid() && n != 0
      modifies pixelBuffer
      ensures forall i, j :: 0 <= i < imageWidth && 0 <= j < imageHeight ==>
        pixelBuffer[i, j] == Div4(old(pixelBuffer[i, j]), n as real)
    {
      var i := 0;
      while i < imageWidth
        invariant 0 <= i <= imageWidth
        invariant forall a, b :: 0 <= a < i && 0 <= b < imageHeight ==> pixelBuffer[a, b] == Div4(old(pixelBuffer[a, b]), n as real)
        invariant forall a, b :: i <= a < imageWidth && 0 <= b < imageHeight ==> pixelBuffer[a, b] == old(pixelBuffer[a, b])
      {
        var j := 0;
        while j < imageHeight
          invariant 0 <= j <= imageHeight
          invariant forall a, b :: 0 <= a < i && 0 <= b < imageHeight ==> pixelBuffer[a, b] == Div4(old(pixelBuffer[a, b]), n as real)
          invariant forall b :: 0 <= b < j ==> pixelBuffer[i, b] == Div4(old(pixelBuffer[i, b]), n as real)
          invariant forall b :: j <= b < imageHeight ==> pixelBuffer[i, b] == old(pixelBuffer[i, b])
          invariant forall a, b :: i < a < imageWidth && 0 <= b < imageHeight ==> pixelBuffer[a, b] == old(pixelBuffer[a, b])
        {
          pixelBuffer[i, j] := Div4(pixelBuffer[i, j], n as real);
          j := j + 1;
        }
        i := i + 1;
      }
    }

    /** `get_buffer`: the pixels as W*H rows, row-major in j. */
    function GetBuffer(): (rows: seq<Vec4>)
      requires Valid()
      reads this, pixelBuffer
      ensures |rows| == imageWidth * imageHeight
      ensures forall i, j :: 0 <= i < imageWidth && 0 <= j < imageHeight ==>
        RowOf(imageWidth, i, j) < |rows| && rows[RowOf(imageWidth, i, j)] == pixelBuffer[i, j]
    {
      if imageWidth == 0 then []
      else
        var rows := seq(imageWidth * imageHeight, k requires 0 <= k < imageWidth * imageHeight && imageWidth > 0 &&
                                                             pixelBuffer.Length0 == imageWidth && pixelBuffer.Length1 == imageHeight
                                                    reads this, pixelBuffer =>
          RowPixel(imageWidth, imageHeight, k);
          pixelBuffer[k % imageWidth, k / imageWidth]);
        forall i, j | 0 <= i < imageWidth && 0 <= j < imageHeight
          ensures RowOf(imageWidth, i, j) < |rows| && rows[RowOf(imageWidth, i, j)] == pixelBuffer[i, j]
        {
          RowIndex(imageWidth, imageHeight, i, j);
          var k := RowOf(imageWidth, i, j);
          assert rows[k] == pixelBuffer[k % imageWidth, k / imageWidth];
        }
        rows
    }
  }

  /** Every row of the readout is some pixel: row k is pixel
      (k mod W, k div W). */
  lemma GetBufferRows(r: Renderer, k: int)
    requires r.Valid() && r.imageWidth > 0 && 0 <= k < r.imageWidth * r.imageHeight
    ensures 0 <= k % r.imageWidth < r.imageWidth && 0 <= k / r.imageWidth < r.imageHeight
    ensures r.GetBuffer()[k] == r.pixelBuffer[k % r.imageWidth, k / r.imageWidth]
  {
    var i, j := k % r.imageWidth, k / r.imageWidth;
    RowPixel(r.imageWidth, r.imageHeight, k);
    assert k == j * r.imageWidth + i;
  }
}
