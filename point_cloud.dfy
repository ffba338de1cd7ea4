/**
 * The per-frame point cloud handed from the capture worker to the viewer:
 * parallel per-pixel sequences of validity, 3D position and colour, plus the
 * pixel width of the image they were sampled from.
 */
module PointCloud {
  import opened Primitives

  /** A 3D position relative to the camera and its RGB colour. */
  type Sample = (Vec3, Rgb)

  /** The assertion of the constructor that failed (each one panics in the source). */
  datatype ShapeError =
    | PositionLengthMismatch  // `valid` and `position` differ in length
    | ColorLengthMismatch     // `valid` and `color` differ in length
    | ZeroWidth               // `len % width` with a zero width
    | WidthDoesNotDivide      // the pixel count is not a whole number of rows

  /**
   * The fields are private in the source: a cloud is made only by `New` or by
   * the derived `Default`. The accessors `valid()`, `position()`, `color()` and
   * `width()` are the destructors of this datatype.
   */
  datatype ImagePointCloud = ImagePointCloud(valid: seq<bool>, position: seq<Vec3>, color: seq<Rgb>, width: nat)
  {
    /** The shape invariant `New` checks. */
    predicate Wellformed()
    {
      && |valid| == |position|
      && |valid| == |color|
      && width > 0
      && |valid| % width == 0
    }

    /** Number of pixel rows; `None` stands for the division by a zero width. */
    function Height(): (h: Option<nat>)
      ensures h.Some? <==> width > 0
      ensures h.Some? ==> h.value * width <= |valid| < (h.value + 1) * width
    {
      if width == 0 then None else Some(|valid| / width)
    }

    /** One entry per pixel in raster order: the sample where the pixel is valid, else `None`. */
    function IterPixels(): (r: seq<Option<Sample>>)
      ensures |r| <= |valid|
    {
      PixelSamples(position, color, valid)
    }
  }

  /** The derived `Default`: empty sequences and width zero. */
  function Default(): ImagePointCloud
  {
    ImagePointCloud([], [], [], 0)
  }

  /** The checked constructor; an `Err` is the assertion that panics. */
  function New(valid: seq<bool>, position: seq<Vec3>, color: seq<Rgb>, width: nat): (r: Result<ImagePointCloud, ShapeError>)
    ensures r.Ok? <==> ImagePointCloud(valid, position, color, width).Wellformed()
    ensures r.Ok? ==> r.value == ImagePointCloud(valid, position, color, width)
    ensures r.Err? ==> (r.error == PositionLengthMismatch <==> |valid| != |position|)
    ensures r.Err? && |valid| == |position| ==> (r.error == ColorLengthMismatch <==> |valid| != |color|)
    ensures r.Err? && |valid| == |position| == |color| ==> (r.error == ZeroWidth <==> width == 0)
  {
    if |valid| != |position| then Err(PositionLengthMismatch)
    else if |valid| != |color| then Err(ColorLengthMismatch)
    else if width == 0 then Err(ZeroWidth)
    else if |valid| % width != 0 then Err(WidthDoesNotDivide)
    else Ok(ImagePointCloud(valid, position, color, width))
  }

  function Min3(a: nat, b: nat, c: nat): nat
  {
    if a <= b && a <= c then a else if b <= c then b else c
  }

  /** `position.zip(color).zip(valid).map(|(s, v)| v.then(|| s))`: stops at the shortest input. */
  function PixelSamples(position: seq<Vec3>, color: seq<Rgb>, valid: seq<bool>): (r: seq<Option<Sample>>)
    ensures |r| == Min3(|position|, |color|, |valid|)
  {
    if |position| == 0 || |color| == 0 || |valid| == 0 then []
    else
      [if valid[0] then Some((position[0], color[0])) else None]
      + PixelSamples(position[1..], color[1..], valid[1..])
  }

  /** Number of `Some` entries of a sample stream. */
  function CountSome<T>(s: seq<Option<T>>): nat
  {
    if s == [] then 0 else (if s[0].Some? then 1 else 0) + CountSome(s[1..])
  }

  /** Number of `true` entries of a mask. */
  function CountTrue(s: seq<bool>): nat
  {
    if s == [] then 0 else (if s[0] then 1 else 0) + CountTrue(s[1..])
  }

  lemma {:induction false} PixelSamplesAt(position: seq<Vec3>, color: seq<Rgb>, valid: seq<bool>, i: nat)
    requires i < |position| && i < |color| && i < |valid|
    ensures i < |PixelSamples(position, color, valid)|
    ensures PixelSamples(position, color, valid)[i]
            == if valid[i] then Some((position[i], color[i])) else None
  {
    if i > 0 {
      PixelSamplesAt(position[1..], color[1..], valid[1..], i - 1);
    }
  }

  lemma {:induction false} PixelSamplesCount(position: seq<Vec3>, color: seq<Rgb>, valid: seq<bool>)
    requires |position| == |valid| && |color| == |valid|
    ensures CountSome(PixelSamples(position, color, valid)) == CountTrue(valid)
  {
    if valid != [] {
      PixelSamplesCount(position[1..], color[1..], valid[1..]);
    }
  }

  /** A successful `New` keeps its four arguments, readable back through the accessors. */
  lemma NewAccessors(valid: seq<bool>, position: seq<Vec3>, color: seq<Rgb>, width: nat)
    requires New(valid, position, color, width).Ok?
    ensures var c := New(valid, position, color, width).value;
      c.valid == valid && c.position == position && c.color == color && c.width == width
  {
  }

  /** `New` demands a non-zero width: the remainder by zero panics before the cloud exists. */
  lemma NewRejectsZeroWidth(valid: seq<bool>, position: seq<Vec3>, color: seq<Rgb>)
    ensures New(valid, position, color, 0).Err?
  {
  }

  /** After a successful `New`, `height() * width()` is exactly the pixel count. */
  lemma {:induction false} NewHeight(valid: seq<bool>, position: seq<Vec3>, color: seq<Rgb>, width: nat)
    requires New(valid, position, color, width).Ok?
    ensures var c := New(valid, position, color, width).value;
      c.Height().Some? && c.Height().value * c.width == |c.valid|
  {
    var c := New(valid, position, color, width).value;
    DivModUnique(|valid|, width, |valid| / width, 0);
  }

  /**
   * On a cloud built by `New`, `iter_pixels` yields one item per pixel, and item `i`
   * is `Some((position[i], color[i]))` exactly when `valid[i]`.
   */
  lemma IterPixelsExact(c: ImagePointCloud, i: nat)
    requires c.Wellformed() && i < |c.valid|
    ensures |c.IterPixels()| == |c.valid|
    ensures c.IterPixels()[i].Some? <==> c.valid[i]
    ensures c.valid[i] ==> c.IterPixels()[i] == Some((c.position[i], c.color[i]))
  {
    PixelSamplesAt(c.position, c.color, c.valid, i);
  }

  /** The number of present samples equals the number of valid pixels. */
  lemma IterPixelsCount(c: ImagePointCloud)
    requires c.Wellformed()
    ensures CountSome(c.IterPixels()) == CountTrue(c.valid)
  {
    PixelSamplesCount(c.position, c.color, c.valid);
  }

  /** The derived default is not a well-formed cloud: it yields nothing and its `height()` divides by zero. */
  lemma DefaultCloud()
    ensures !Default().Wellformed()
    ensures Default().Height() == None
    ensures Default().IterPixels() == []
  {
  }
}
