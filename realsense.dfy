/**
 * One iteration of the capture loop: the raw depth and colour frames are
 * copied into the worker's reusable buffers, the colour is aligned to the
 * depth image, and the point cloud for the frame is assembled.
 *
 * The alignment and the deprojection live in a module that is not part of
 * this model; they enter as function parameters that already capture the
 * depth intrinsics, the depth-to-colour extrinsics and the colour intrinsics.
 */
module Realsense {
  import opened Primitives
  import opened PointCloud

  /** A pixel as a frame's iterator yields it; `OtherKind` is any format besides these two. */
  datatype PixelKind = Z16(depth: u16) | Bgr8(b: u8, g: u8, r: u8) | OtherKind

  /** A captured frame: its pixel dimensions and its pixels in raster order. */
  datatype Frame = Frame(width: nat, height: nat, pixels: seq<PixelKind>)

  /**
   * `align_images(depth_intr, extr, color_intr, in_depth, in_color, out_color)`:
   * from the depth samples, the colour samples and the output buffer as it is
   * before the call, the content of the output buffer after the call.
   */
  type AlignFn = (seq<u16>, seq<Rgb>, seq<Rgb>) -> seq<Rgb>

  /** `rs2_deproject_pixel_to_point(depth_intr, [px, py], depth)`. */
  type DeprojectFn = (real, real, real) -> Vec3

  /** Each case is a panic of the loop body. */
  datatype FrameError =
    | BadDepthPixel(index: nat)          // the depth frame holds a pixel that is not Z16
    | BadColorPixel(index: nat)          // the colour frame holds a pixel that is not BGR8
    | DepthIndexOutOfBounds(index: nat)  // `in_depth_buf[pixel_idx]` past the end
    | BadShape(shape: ShapeError)        // `ImagePointCloud::new` rejected the buffers

  const Black: Rgb := [0, 0, 0]

  /** What extending the depth buffer from the frame pushes before it stops: the leading Z16 samples. */
  function DepthPrefix(pixels: seq<PixelKind>): (d: seq<u16>)
    ensures |d| <= |pixels|
    ensures forall i :: 0 <= i < |d| ==> pixels[i].Z16? && d[i] == pixels[i].depth
    ensures |d| < |pixels| ==> !pixels[|d|].Z16?
  {
    if pixels == [] || !pixels[0].Z16? then []
    else [pixels[0].depth] + DepthPrefix(pixels[1..])
  }

  /** The leading BGR8 samples, each stored as `[r, g, b]`. */
  function ColorPrefix(pixels: seq<PixelKind>): (c: seq<Rgb>)
    ensures |c| <= |pixels|
    ensures forall i :: 0 <= i < |c| ==> pixels[i].Bgr8? && c[i] == [pixels[i].r, pixels[i].g, pixels[i].b]
    ensures |c| < |pixels| ==> !pixels[|c|].Bgr8?
  {
    if pixels == [] || !pixels[0].Bgr8? then []
    else [[pixels[0].r, pixels[0].g, pixels[0].b]] + ColorPrefix(pixels[1..])
  }

  /** `Vec::resize`: truncate to `n`, or pad with `fill` up to `n`. */
  function Resize(s: seq<Rgb>, n: nat, fill: Rgb): (r: seq<Rgb>)
    ensures |r| == n
    ensures forall i :: 0 <= i < n && i < |s| ==> r[i] == s[i]
    ensures forall i :: |s| <= i < n ==> r[i] == fill
  {
    if n <= |s| then s[..n] else s + seq(n - |s|, _ => fill)
  }

  /** Per-pixel validity: a zero depth is the "no measurement" sentinel. */
  function ValidMask(depth: seq<u16>): seq<bool>
  {
    seq(|depth|, i requires 0 <= i < |depth| => depth[i] != 0)
  }

  /** The point of flat pixel `n` of an image `width` pixels wide, deprojected at the pixel's corner. */
  function PositionAt(deproject: DeprojectFn, depth: seq<u16>, width: nat, n: nat): Vec3
    requires width > 0 && n < |depth|
  {
    deproject((n % width) as real - 0.5, (n / width) as real - 0.5, depth[n] as real)
  }

  /** The positions of the first `width * height` pixels, in raster order. */
  function Positions(deproject: DeprojectFn, depth: seq<u16>, width: nat, height: nat): seq<Vec3>
    requires width * height <= |depth|
  {
    seq(width * height, n requires 0 <= n < width * height => PositionAt(deproject, depth, width, n))
  }

  /** What one loop iteration hands to the callback, or the panic that ends the worker. */
  function ConvertFrame(depthFrame: Frame, colorFrame: Frame, align: AlignFn, deproject: DeprojectFn)
    : Result<ImagePointCloud, FrameError>
  {
    var depth := DepthPrefix(depthFrame.pixels);
    if |depth| < |depthFrame.pixels| then Err(BadDepthPixel(|depth|))
    else
      var color := ColorPrefix(colorFrame.pixels);
      if |color| < |colorFrame.pixels| then Err(BadColorPixel(|color|))
      else
        var aligned := align(depth, color, Resize([], |depth|, Black));
        var width, height := colorFrame.width, colorFrame.height;
        if width * height > |depth| then Err(DepthIndexOutOfBounds(|depth|))
        else
          match New(ValidMask(depth), Positions(deproject, depth, width, height), aligned, width)
          case Ok(cloud) => Ok(cloud)
          case Err(e) => Err(BadShape(e))
  }

  lemma MulCount(w: nat, h: nat)
    requires w > 0
    ensures (w * h) % w == 0 && (w * h) / w == h
  {
    DivModUnique(w * h, w, h, 0);
  }

  /**
   * A frame converts exactly when every depth pixel is Z16, every colour pixel
   * is BGR8, the colour frame's width is non-zero, the depth sample count is
   * the colour frame's `width * height`, and the alignment keeps the length of
   * the output buffer.
   */
  lemma {:induction false} ConvertFrameSucceeds(depthFrame: Frame, colorFrame: Frame, align: AlignFn, deproject: DeprojectFn)
    ensures ConvertFrame(depthFrame, colorFrame, align, deproject).Ok? <==>
      && (forall i :: 0 <= i < |depthFrame.pixels| ==> depthFrame.pixels[i].Z16?)
      && (forall i :: 0 <= i < |colorFrame.pixels| ==> colorFrame.pixels[i].Bgr8?)
      && colorFrame.width > 0
      && |depthFrame.pixels| == colorFrame.width * colorFrame.height
      && |align(DepthPrefix(depthFrame.pixels), ColorPrefix(colorFrame.pixels), Resize([], |depthFrame.pixels|, Black))|
         == |depthFrame.pixels|
  {
    var depth := DepthPrefix(depthFrame.pixels);
    var color := ColorPrefix(colorFrame.pixels);
    var w, h := colorFrame.width, colorFrame.height;
    if |depth| == |depthFrame.pixels| && |color| == |colorFrame.pixels| && w > 0 && w * h == |depth| {
      MulCount(w, h);
    }
  }

  /** The first pixel of the depth frame that is not Z16 is the one reported. */
  lemma ConvertFrameDepthError(depthFrame: Frame, colorFrame: Frame, align: AlignFn, deproject: DeprojectFn, k: nat)
    ensures ConvertFrame(depthFrame, colorFrame, align, deproject) == Err(BadDepthPixel(k)) <==>
      && k < |depthFrame.pixels|
      && !depthFrame.pixels[k].Z16?
      && forall i :: 0 <= i < k ==> depthFrame.pixels[i].Z16?
  {
    var depth := DepthPrefix(depthFrame.pixels);
    if k < |depthFrame.pixels| && !depthFrame.pixels[k].Z16? && forall i :: 0 <= i < k ==> depthFrame.pixels[i].Z16? {
      assert |depth| <= k;
    }
  }

  /** With a valid depth frame, the first pixel of the colour frame that is not BGR8 is the one reported. */
  lemma ConvertFrameColorError(depthFrame: Frame, colorFrame: Frame, align: AlignFn, deproject: DeprojectFn, k: nat)
    requires forall i :: 0 <= i < |depthFrame.pixels| ==> depthFrame.pixels[i].Z16?
    ensures ConvertFrame(depthFrame, colorFrame, align, deproject) == Err(BadColorPixel(k)) <==>
      && k < |colorFrame.pixels|
      && !colorFrame.pixels[k].Bgr8?
      && forall i :: 0 <= i < k ==> colorFrame.pixels[i].Bgr8?
  {
    var color := ColorPrefix(colorFrame.pixels);
    if k < |colorFrame.pixels| && !colorFrame.pixels[k].Bgr8? && forall i :: 0 <= i < k ==> colorFrame.pixels[i].Bgr8? {
      assert |color| <= k;
    }
  }

  /**
   * The cloud of a converted frame: it is as wide and as high as the colour
   * frame, has one entry per depth sample, is valid exactly where the depth is
   * non-zero, and takes its colours from the aligned buffer, which the
   * alignment received as `|depth|` black entries.
   */
  lemma {:induction false} ConvertFrameCloud(depthFrame: Frame, colorFrame: Frame, align: AlignFn, deproject: DeprojectFn)
    requires ConvertFrame(depthFrame, colorFrame, align, deproject).Ok?
    ensures var c := ConvertFrame(depthFrame, colorFrame, align, deproject).value;
      && c.Wellformed()
      && c.width == colorFrame.width
      && c.Height() == Some(colorFrame.height)
      && |c.valid| == |depthFrame.pixels|
      && (forall i :: 0 <= i < |c.valid| ==> (c.valid[i] <==> depthFrame.pixels[i].depth != 0))
      && c.color == align(DepthPrefix(depthFrame.pixels), ColorPrefix(colorFrame.pixels),
                          Resize([], |depthFrame.pixels|, Black))
  {
    ConvertFrameSucceeds(depthFrame, colorFrame, align, deproject);
    MulCount(colorFrame.width, colorFrame.height);
  }

  /** Position `y * width + x` is the depth pixel's deprojection at the corner `(x - 0.5, y - 0.5)`. */
  lemma ConvertFramePosition(depthFrame: Frame, colorFrame: Frame, align: AlignFn, deproject: DeprojectFn, x: nat, y: nat)
    requires ConvertFrame(depthFrame, colorFrame, align, deproject).Ok?
    requires x < colorFrame.width && y < colorFrame.height
    ensures var c := ConvertFrame(depthFrame, colorFrame, align, deproject).value;
      var n := y * colorFrame.width + x;
      && n < |c.position|
      && c.position[n] == deproject(x as real - 0.5, y as real - 0.5, depthFrame.pixels[n].depth as real)
  {
    PositionsAt(deproject, DepthPrefix(depthFrame.pixels), colorFrame.width, colorFrame.height, x, y);
  }

  /** Entry `y * width + x` of the raster is pixel `(x, y)` deprojected at its corner. */
  lemma PositionsAt(deproject: DeprojectFn, depth: seq<u16>, width: nat, height: nat, x: nat, y: nat)
    requires width * height <= |depth| && x < width && y < height
    ensures y * width + x < width * height
    ensures Positions(deproject, depth, width, height)[y * width + x]
            == deproject(x as real - 0.5, y as real - 0.5, depth[y * width + x] as real)
  {
    MulMonotone(y + 1, height, width);
    DivModUnique(y * width + x, width, y, x);
  }

  /**
   * The nested `for y`, `for x` loop: the deprojected corner of every pixel of a
   * `width` by `height` image in raster order, or the index of the first pixel
   * past the end of the depth buffer.
   */
  method DeprojectRaster(deproject: DeprojectFn, depth: seq<u16>, width: nat, height: nat)
    returns (r: Result<seq<Vec3>, nat>)
    ensures r.Ok? <==> width * height <= |depth|
    ensures r.Ok? ==> r.value == Positions(deproject, depth, width, height)
    ensures r.Err? ==> r.error == |depth|
  {
    var position: seq<Vec3> := [];
    for y := 0 to height
      invariant |position| == y * width <= |depth|
      invariant forall n :: 0 <= n < |position| ==> position[n] == PositionAt(deproject, depth, width, n)
    {
      for x := 0 to width
        invariant |position| == y * width + x <= |depth|
        invariant forall n :: 0 <= n < |position| ==> position[n] == PositionAt(deproject, depth, width, n)
      {
        var pixelIdx := y * width + x;
        if pixelIdx >= |depth| {
          MulMonotone(y + 1, height, width);
          return Err(pixelIdx);
        }
        DivModUnique(pixelIdx, width, y, x);
        position := position + [deproject(x as real - 0.5, y as real - 0.5, depth[pixelIdx] as real)];
      }
    }
    return Ok(position);
  }

  /** The three reusable buffers of the capture worker. */
  class FrameBuffers {
    var inDepth: seq<u16>
    var inColor: seq<Rgb>
    var outColor: seq<Rgb>

    constructor ()
      ensures inDepth == [] && inColor == [] && outColor == []
    {
      inDepth, inColor, outColor := [], [], [];
    }

    /**
     * `in_depth_buf.extend(...)` over the depth frame: pushes each Z16 sample
     * until the first pixel of another kind, whose index is the panic.
     */
    method ExtendDepth(pixels: seq<PixelKind>) returns (bad: Option<nat>)
      modifies this
      ensures inDepth == old(inDepth) + DepthPrefix(pixels)
      ensures bad == if |DepthPrefix(pixels)| < |pixels| then Some(|DepthPrefix(pixels)|) else None
      ensures inColor == old(inColor) && outColor == old(outColor)
    {
      ghost var depth := DepthPrefix(pixels);
      var k := 0;
      while k < |pixels|
        invariant k <= |depth| && inDepth == old(inDepth) + depth[..k]
        invariant inColor == old(inColor) && outColor == old(outColor)
      {
        match pixels[k] {
          case Z16(d) =>
            assert depth[..k + 1] == depth[..k] + [d];
            AppendAssoc(old(inDepth), depth[..k], [d]);
            inDepth := inDepth + [d];
          case _ =>
            return Some(k);
        }
        k := k + 1;
      }
      assert depth[..k] == depth;
      return None;
    }

    /**
     * `in_color_buf.extend(...)` over the colour frame: pushes each BGR8 sample
     * as `[r, g, b]` until the first pixel of another kind, whose index is the panic.
     */
    method ExtendColor(pixels: seq<PixelKind>) returns (bad: Option<nat>)
      modifies this
      ensures inColor == old(inColor) + ColorPrefix(pixels)
      ensures bad == if |ColorPrefix(pixels)| < |pixels| then Some(|ColorPrefix(pixels)|) else None
      ensures inDepth == old(inDepth) && outColor == old(outColor)
    {
      ghost var color := ColorPrefix(pixels);
      var k := 0;
      while k < |pixels|
        invariant k <= |color| && inColor == old(inColor) + color[..k]
        invariant inDepth == old(inDepth) && outColor == old(outColor)
      {
        match pixels[k] {
          case Bgr8(b, g, red) =>
            assert color[..k + 1] == color[..k] + [[red, g, b]];
            AppendAssoc(old(inColor), color[..k], [[red, g, b]]);
            inColor := inColor + [[red, g, b]];
          case _ =>
            return Some(k);
        }
        k := k + 1;
      }
      assert color[..k] == color;
      return None;
    }

    /**
     * One iteration of the capture loop on an arrived pair of frames. The new
     * content of every buffer is a function of this frame alone: nothing of an
     * earlier frame survives.
     */
    method ProcessFrame(depthFrame: Frame, colorFrame: Frame, align: AlignFn, deproject: DeprojectFn)
      returns (r: Result<ImagePointCloud, FrameError>)
      modifies this
      ensures r == ConvertFrame(depthFrame, colorFrame, align, deproject)
      ensures inDepth == DepthPrefix(depthFrame.pixels)
      ensures inColor == if |inDepth| < |depthFrame.pixels| then [] else ColorPrefix(colorFrame.pixels)
      ensures outColor ==
        if |inDepth| < |depthFrame.pixels| || |inColor| < |colorFrame.pixels| then []
        else align(inDepth, inColor, Resize([], |inDepth|, Black))
    {
      inDepth := [];
      inColor := [];
      outColor := [];

      var badDepth := ExtendDepth(depthFrame.pixels);
      assert inDepth == DepthPrefix(depthFrame.pixels);
      if badDepth.Some? {
        r := Err(BadDepthPixel(badDepth.value));
        return;
      }
      var badColor := ExtendColor(colorFrame.pixels);
      assert inColor == ColorPrefix(colorFrame.pixels);
      if badColor.Some? {
        r := Err(BadColorPixel(badColor.value));
        return;
      }

      outColor := Resize(outColor, |inDepth|, Black);
      outColor := align(inDepth, inColor, outColor);

      var valid := ValidMask(inDepth);
      var raster := DeprojectRaster(deproject, inDepth, colorFrame.width, colorFrame.height);
      if raster.Err? {
        r := Err(DepthIndexOutOfBounds(raster.error));
        return;
      }
      var position, width := raster.value, colorFrame.width;
      match New(valid, position, outColor, width)
      case Ok(cloud) =>
        r := Ok(cloud);
      case Err(e) =>
        r := Err(BadShape(e));
    }
  }
}
