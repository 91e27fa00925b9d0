/** image.rs: cropping, nearest-neighbour scaling and what is handed to an encoder. */
module ImageScale {
  import opened Bytes
  import opened Pixels

  datatype Region = Region(x: u32, y: u32, width: u32, height: u32)

  // ----- clamping

  /** clamp_region: None for a region outside the desktop. */
  function ClampRegion(requested: Option<Region>, width: u32, height: u32): (r: Option<Region>)
    ensures r.Some? && width > 0 && height > 0 ==> Inside(r.value, width, height)
  {
    match requested
    case None => Some(Region(0, 0, width, height))
    case Some(g) =>
      if g.width == 0 || g.height == 0 || g.x >= width || g.y >= height then None
      else Some(Region(g.x, g.y, Min(g.width, width - g.x), Min(g.height, height - g.y)))
  }

  predicate Inside(g: Region, width: nat, height: nat) {
    g.width > 0 && g.height > 0 && g.x + g.width <= width && g.y + g.height <= height
  }

  predicate Contains(g: Region, px: nat, py: nat) {
    g.x <= px < g.x + g.width && g.y <= py < g.y + g.height
  }

  /** The clamped region is the requested one's part of the desktop; there is none exactly when that part is empty. */
  lemma ClampIsIntersection(g: Region, width: u32, height: u32)
    ensures var r := ClampRegion(Some(g), width, height);
            && (r.None? <==> !exists px, py :: 0 <= px < width && 0 <= py < height && Contains(g, px, py))
            && (r.Some? ==> forall px, py :: 0 <= px < width && 0 <= py < height ==>
                  (Contains(r.value, px, py) <==> Contains(g, px, py)))
    ensures ClampRegion(None, width, height) == Some(Region(0, 0, width, height))
  {
    if ClampRegion(Some(g), width, height).Some? {
      assert Contains(g, g.x, g.y);
    }
  }

  // ----- cropping

  /** The pixel (i, j) of the crop is the pixel under it, for every one of them. */
  ghost predicate IsCrop(output: bytes, source: bytes, sourceWidth: nat, g: Region, rows: nat) {
    forall i, j :: 0 <= i < g.width && 0 <= j < rows ==>
      && Offset(g.width, i, j) + 4 <= |output| && Offset(sourceWidth, g.x + i, g.y + j) + 4 <= |source|
      && PixelAt(output, g.width, i, j) == PixelAt(source, sourceWidth, g.x + i, g.y + j)
  }

  /** crop_rgba */
  method CropRgba(source: bytes, sourceWidth: u32, sourceHeight: u32, g: Region) returns (output: array<byte>)
    requires |source| == Size(sourceWidth, sourceHeight) && Inside(g, sourceWidth, sourceHeight)
    ensures fresh(output) && output.Length == Size(g.width, g.height)
    ensures IsCrop(output[..], source, sourceWidth, g, g.height)
  {
    hide IsCrop, Splice, Offset, Size;
    var rowBytes := g.width * 4;
    output := new byte[rowBytes * g.height](_ => 0);
    RowsSize(g.width, g.height);
    var row := 0;
    NothingCropped(output[..], source, sourceWidth, g);
    while row < g.height
      invariant 0 <= row <= g.height
      invariant IsCrop(output[..], source, sourceWidth, g, row)
    {
      CopyCroppedRow(source, sourceWidth, sourceHeight, g, row, output);
      row := row + 1;
    }
  }

  method CopyCroppedRow(source: bytes, sourceWidth: u32, sourceHeight: u32, g: Region, row: nat, output: array<byte>)
    requires |source| == Size(sourceWidth, sourceHeight) && Inside(g, sourceWidth, sourceHeight) && row < g.height
    requires output.Length == Size(g.width, g.height) && IsCrop(output[..], source, sourceWidth, g, row)
    modifies output
    ensures IsCrop(output[..], source, sourceWidth, g, row + 1)
  {
    hide IsCrop, Splice, Offset, Size;
    ghost var before := output[..];
    RowFits(source, sourceWidth, sourceHeight, g, row);
    var sourceStart := (g.y + row) * (sourceWidth * 4) + g.x * 4;
    var targetStart := row * (g.width * 4);
    CopyBytes(output, targetStart, source, sourceStart, g.width * 4);
    CropRow(before, source, sourceWidth, sourceHeight, g, row);
  }

  lemma NothingCropped(output: bytes, source: bytes, sourceWidth: nat, g: Region)
    ensures IsCrop(output, source, sourceWidth, g, 0)
  {}

  lemma RowFits(source: bytes, sourceWidth: nat, sourceHeight: nat, g: Region, row: nat)
    requires |source| == Size(sourceWidth, sourceHeight) && Inside(g, sourceWidth, sourceHeight) && row < g.height
    ensures row * (g.width * 4) + g.width * 4 <= Size(g.width, g.height)
    ensures row * (g.width * 4) == Offset(g.width, 0, row)
    ensures (g.y + row) * (sourceWidth * 4) + g.x * 4 + g.width * 4 <= |source|
    ensures (g.y + row) * (sourceWidth * 4) + g.x * 4 == Offset(sourceWidth, g.x, g.y + row)
  {
    hide Size, Offset;
    RunInside(g.width, g.height, 0, row, g.width);
    RunInside(sourceWidth, sourceHeight, g.x, g.y + row, g.width);
  }

  lemma RunInside(width: nat, height: nat, x: nat, y: nat, n: nat)
    requires n > 0 && x + n <= width && y < height
    ensures y * (width * 4) + x * 4 == Offset(width, x, y)
    ensures Offset(width, x, y) + n * 4 <= Size(width, height)
  {
    hide Size;
    RowStart(width, x, y);
    OffsetInside(width, height, x + n - 1, y);
  }

  lemma RowStart(width: nat, x: nat, y: nat)
    ensures y * (width * 4) + x * 4 == Offset(width, x, y)
  {}

  lemma RowsSize(width: nat, height: nat)
    ensures width * 4 * height == Size(width, height)
  {}

  lemma CropRow(before: bytes, source: bytes, sourceWidth: nat, sourceHeight: nat, g: Region, row: nat)
    requires |source| == Size(sourceWidth, sourceHeight) && Inside(g, sourceWidth, sourceHeight) && row < g.height
    requires |before| == Size(g.width, g.height)
    requires IsCrop(before, source, sourceWidth, g, row)
    requires Offset(g.width, 0, row) + g.width * 4 <= |before|
    requires Offset(sourceWidth, g.x, g.y + row) + g.width * 4 <= |source|
    ensures var s := Offset(sourceWidth, g.x, g.y + row);
            IsCrop(Splice(before, Offset(g.width, 0, row), source[s..s + g.width * 4]), source, sourceWidth, g, row + 1)
  {
    hide IsCrop, PixelAt, Size, Offset, Splice;
    var s := Offset(sourceWidth, g.x, g.y + row);
    var copied := source[s..s + g.width * 4];
    var after := Splice(before, Offset(g.width, 0, row), copied);
    forall i, j | 0 <= i < g.width && 0 <= j < row + 1
      ensures Offset(g.width, i, j) + 4 <= |after| && Offset(sourceWidth, g.x + i, g.y + j) + 4 <= |source|
      ensures PixelAt(after, g.width, i, j) == PixelAt(source, sourceWidth, g.x + i, g.y + j)
    {
      OffsetInside(g.width, g.height, i, j);
      OffsetInside(sourceWidth, sourceHeight, g.x + i, g.y + j);
      SplicePixel(before, g.width, 0, row, copied, g.width, i, j);
      if j < row {
        CropPixel(before, source, sourceWidth, g, row, i, j);
      } else {
        PixelOfRow(source, sourceWidth, g.x, g.y + row, g.width, i);
      }
    }
    CropOf(after, source, sourceWidth, g, row + 1);
  }

  lemma PixelOfRow(image: bytes, width: nat, x: nat, y: nat, n: nat, i: nat)
    requires i < n && Offset(width, x, y) + n * 4 <= |image|
    ensures Offset(width, x + i, y) + 4 <= |image|
    ensures PixelAt(image, width, x + i, y)
         == image[Offset(width, x, y)..Offset(width, x, y) + n * 4][i * 4..i * 4 + 4]
  {
    hide Offset;
    PixelsOn(width, x, y, i);
    SliceOfSlice(image, Offset(width, x, y), n * 4, i * 4);
  }

  lemma PixelsOn(width: nat, x: nat, y: nat, i: nat)
    ensures Offset(width, x + i, y) == Offset(width, x, y) + i * 4
  {}

  lemma SliceOfSlice(s: bytes, o: nat, n: nat, k: nat)
    requires o + n <= |s| && k + 4 <= n
    ensures s[o..o + n][k..k + 4] == s[o + k..o + k + 4]
  {
    var a, b := s[o..o + n][k..k + 4], s[o + k..o + k + 4];
    assert |a| == |b| == 4;
    assert a[0] == b[0] && a[1] == b[1] && a[2] == b[2] && a[3] == b[3];
  }

  lemma CropOf(output: bytes, source: bytes, sourceWidth: nat, g: Region, rows: nat)
    requires forall i, j :: 0 <= i < g.width && 0 <= j < rows ==>
      && Offset(g.width, i, j) + 4 <= |output| && Offset(sourceWidth, g.x + i, g.y + j) + 4 <= |source|
      && PixelAt(output, g.width, i, j) == PixelAt(source, sourceWidth, g.x + i, g.y + j)
    ensures IsCrop(output, source, sourceWidth, g, rows)
  {}

  lemma CropPixel(output: bytes, source: bytes, sourceWidth: nat, g: Region, rows: nat, i: nat, j: nat)
    requires IsCrop(output, source, sourceWidth, g, rows) && i < g.width && j < rows
    ensures Offset(g.width, i, j) + 4 <= |output| && Offset(sourceWidth, g.x + i, g.y + j) + 4 <= |source|
    ensures PixelAt(output, g.width, i, j) == PixelAt(source, sourceWidth, g.x + i, g.y + j)
  {}

  // ----- scaling

  /** The source index a target index reads. */
  function Nearest(target: nat, sourceSide: nat, targetSide: nat): (r: nat)
    requires targetSide > 0
  {
    target * sourceSide / targetSide
  }

  /**
   * It is the index of the source whose share of the whole, as wide as 1 / sourceSide, holds the
   * beginning of the target index's share.
   */
  lemma NearestIs(target: nat, sourceSide: nat, targetSide: nat, x: nat)
    requires targetSide > 0
    ensures Nearest(target, sourceSide, targetSide) == x
       <==> x * targetSide <= target * sourceSide && target * sourceSide < (x + 1) * targetSide
  {
    var q := Nearest(target, sourceSide, targetSide);
    DivBounds(target * sourceSide, targetSide);
    OneRowMore(x, targetSide);
    OneRowMore(q, targetSide);
    if q < x { RowsBefore(q, x, targetSide); }
    if x < q { RowsBefore(x, q, targetSide); }
  }

  lemma DivBounds(a: nat, b: nat)
    requires b > 0
    ensures a / b * b <= a < a / b * b + b
  {
    assert a == a / b * b + a % b;
  }

  lemma LessFactor(a: nat, b: nat, k: nat)
    ensures a * k < b * k ==> a < b
  {
    if a >= b { assert a * k == b * k + (a - b) * k; }
  }

  lemma NearestInRange(target: nat, sourceSide: nat, targetSide: nat)
    requires target < targetSide && sourceSide > 0
    ensures Nearest(target, sourceSide, targetSide) < sourceSide
  {
    var q := Nearest(target, sourceSide, targetSide);
    DivBounds(target * sourceSide, targetSide);
    assert target * sourceSide < targetSide * sourceSide by { RowsBefore(target, targetSide, sourceSide); }
    LessFactor(q, sourceSide, targetSide);
  }

  /** Scaling down reads different source indices for different target indices, in order. */
  lemma NearestIsInjective(a: nat, b: nat, sourceSide: nat, targetSide: nat)
    requires a < b < targetSide <= sourceSide
    ensures Nearest(a, sourceSide, targetSide) < Nearest(b, sourceSide, targetSide)
  {
    var p, q := Nearest(a, sourceSide, targetSide), Nearest(b, sourceSide, targetSide);
    DivBounds(a * sourceSide, targetSide);
    DivBounds(b * sourceSide, targetSide);
    RowsBefore(a, b, sourceSide);
    assert p * targetSide < q * targetSide;
    LessFactor(p, q, targetSide);
  }

  /** The pixels of `y` rows, and of the next one `x` pixels, are the source pixels their coordinates scale to. */
  ghost predicate IsScaled(output: bytes, source: bytes, sw: nat, sh: nat, tw: nat, th: nat, x: nat, y: nat)
    requires tw > 0 && th > 0
  {
    forall i, j :: 0 <= i < tw && 0 <= j < th && Before(i, j, x, y) ==> IsNearest(output, source, sw, sh, tw, th, i, j)
  }

  predicate Before(i: nat, j: nat, x: nat, y: nat) {
    j < y || (j == y && i < x)
  }

  ghost predicate IsNearest(output: bytes, source: bytes, sw: nat, sh: nat, tw: nat, th: nat, i: nat, j: nat)
    requires tw > 0 && th > 0
  {
    && Offset(tw, i, j) + 4 <= |output| && Offset(sw, Nearest(i, sw, tw), Nearest(j, sh, th)) + 4 <= |source|
    && PixelAt(output, tw, i, j) == PixelAt(source, sw, Nearest(i, sw, tw), Nearest(j, sh, th))
  }

  /** resize_nearest */
  method ResizeNearest(source: bytes, sw: u32, sh: u32, tw: u32, th: u32) returns (output: array<byte>)
    requires |source| == Size(sw, sh) && sw > 0 && sh > 0 && tw > 0 && th > 0
    ensures fresh(output) && output.Length == Size(tw, th)
    ensures IsScaled(output[..], source, sw, sh, tw, th, 0, th)
  {
    hide IsScaled, Nearest, Offset, PixelAt, Size, Splice;
    output := new byte[Size(tw, th)](_ => 0);
    var y := 0;
    NothingScaled(output[..], source, sw, sh, tw, th);
    while y < th
      invariant 0 <= y <= th
      invariant IsScaled(output[..], source, sw, sh, tw, th, 0, y)
    {
      var sourceY := Nearest(y, sh, th);
      NearestInRange(y, sh, th);
      var x := 0;
      while x < tw
        invariant 0 <= x <= tw
        invariant IsScaled(output[..], source, sw, sh, tw, th, x, y)
      {
        ghost var before := output[..];
        var sourceX := Nearest(x, sw, tw);
        NearestInRange(x, sw, tw);
        OffsetInside(sw, sh, sourceX, sourceY);
        OffsetInside(tw, th, x, y);
        CopyBytes(output, Offset(tw, x, y), source, Offset(sw, sourceX, sourceY), 4);
        ScalePixel(before, source, sw, sh, tw, th, x, y);
        x := x + 1;
      }
      RowScaled(output[..], source, sw, sh, tw, th, y);
      y := y + 1;
    }
  }

  lemma NothingScaled(output: bytes, source: bytes, sw: nat, sh: nat, tw: nat, th: nat)
    requires tw > 0 && th > 0
    ensures IsScaled(output, source, sw, sh, tw, th, 0, 0)
  {}

  lemma RowScaled(output: bytes, source: bytes, sw: nat, sh: nat, tw: nat, th: nat, y: nat)
    requires tw > 0 && th > 0 && IsScaled(output, source, sw, sh, tw, th, tw, y)
    ensures IsScaled(output, source, sw, sh, tw, th, 0, y + 1)
  {
    hide IsNearest;
  }

  lemma ScalePixel(before: bytes, source: bytes, sw: nat, sh: nat, tw: nat, th: nat, x: nat, y: nat)
    requires sw > 0 && sh > 0 && x < tw && y < th && |before| == Size(tw, th)
    requires IsScaled(before, source, sw, sh, tw, th, x, y)
    requires Offset(tw, x, y) + 4 <= |before| && Offset(sw, Nearest(x, sw, tw), Nearest(y, sh, th)) + 4 <= |source|
    ensures var s := Offset(sw, Nearest(x, sw, tw), Nearest(y, sh, th));
            IsScaled(Splice(before, Offset(tw, x, y), source[s..s + 4]), source, sw, sh, tw, th, x + 1, y)
  {
    hide IsNearest, Nearest, Offset, PixelAt, Splice, Size;
    var s := Offset(sw, Nearest(x, sw, tw), Nearest(y, sh, th));
    var after := Splice(before, Offset(tw, x, y), source[s..s + 4]);
    forall i, j | 0 <= i < tw && 0 <= j < th && Before(i, j, x + 1, y)
      ensures IsNearest(after, source, sw, sh, tw, th, i, j)
    {
      assert (i == x && j == y) || Before(i, j, x, y);
      ScaleOne(before, source, sw, sh, tw, th, x, y, i, j);
    }
  }

  lemma ScaleOne(before: bytes, source: bytes, sw: nat, sh: nat, tw: nat, th: nat, x: nat, y: nat, i: nat, j: nat)
    requires sw > 0 && sh > 0 && x < tw && y < th && i < tw && j < th && |before| == Size(tw, th)
    requires Offset(tw, x, y) + 4 <= |before| && Offset(sw, Nearest(x, sw, tw), Nearest(y, sh, th)) + 4 <= |source|
    requires (i == x && j == y) || IsNearest(before, source, sw, sh, tw, th, i, j)
    ensures var s := Offset(sw, Nearest(x, sw, tw), Nearest(y, sh, th));
            IsNearest(Splice(before, Offset(tw, x, y), source[s..s + 4]), source, sw, sh, tw, th, i, j)
  {
    hide Nearest, Offset, Splice, Size, PixelAt;
    var s := Offset(sw, Nearest(x, sw, tw), Nearest(y, sh, th));
    var pixel := source[s..s + 4];
    OffsetInside(tw, th, i, j);
    SplicePixel(before, tw, x, y, pixel, 1, i, j);
    assert pixel[0..4] == pixel;
    assert pixel == PixelAt(source, sw, Nearest(x, sw, tw), Nearest(y, sh, th)) by {
      PixelIsSlice(source, sw, Nearest(x, sw, tw), Nearest(y, sh, th));
    }
  }

  lemma ScaledPixel(output: bytes, source: bytes, sw: nat, sh: nat, tw: nat, th: nat, i: nat, j: nat)
    requires tw > 0 && th > 0 && IsScaled(output, source, sw, sh, tw, th, 0, th) && i < tw && j < th
    ensures IsNearest(output, source, sw, sh, tw, th, i, j)
  {}

  lemma PixelIsSlice(image: bytes, width: nat, x: nat, y: nat)
    requires Offset(width, x, y) + 4 <= |image|
    ensures PixelAt(image, width, x, y) == image[Offset(width, x, y)..Offset(width, x, y) + 4]
  {}

  // ----- the target height

  /** The height for a width cut down to `limit`, in 64-bit arithmetic. */
  function TargetHeight(width: u32, height: u32, limit: u32): (r: nat)
    requires width > 0
  {
    var h := (height * limit + width / 2) / width;
    if h < 1 then 1 else h
  }

  /** No step of it leaves 64 bits. */
  lemma NoOverflow(width: u32, height: u32, limit: u32)
    ensures height * limit + width / 2 < 0x1_0000_0000_0000_0000
  {
    ProductBound(height, limit, 0xFFFF_FFFF);
  }

  lemma ProductBound(a: nat, b: nat, m: nat)
    requires a <= m && b <= m
    ensures a * b <= m * m
  {
    assert a * b <= m * b;
  }

  /** It never exceeds the source's height, so the narrowing cast keeps it. */
  lemma TargetHeightBounds(width: u32, height: u32, limit: u32)
    requires 0 < limit < width && height > 0
    ensures 1 <= TargetHeight(width, height, limit) <= height
  {
    var n := height * limit + width / 2;
    DivBounds(n, width);
    RowsBefore(limit, width, height);
    assert height * limit == limit * height && height * width == width * height;
    OneRowMore(height, width);
    LessFactor(n / width, height + 1, width);
  }

  /** `h` is the height that keeps the proportions, rounded with halves upwards, but at least 1. */
  predicate Proportional(h: int, width: nat, height: nat, limit: nat) {
    if 2 * (height * limit) < width then h == 1
    else 2 * (h * width - height * limit) <= width && 2 * (height * limit - h * width) < width
  }

  lemma TargetHeightIsRounded(width: u32, height: u32, limit: u32)
    requires 0 < limit < width
    ensures Proportional(TargetHeight(width, height, limit), width, height, limit)
  {
    var n := height * limit;
    var q := (n + width / 2) / width;
    DivBounds(n + width / 2, width);
    if 2 * n < width {
      LessFactor(q, 1, width);
    } else {
      AtLeastOne(n + width / 2, width);
    }
  }

  lemma AtLeastOne(a: nat, b: nat)
    requires 0 < b <= a
    ensures a / b >= 1
  {}

  // ----- encode

  /** The picture an encoder gets. */
  datatype Picture = Picture(pixels: bytes, width: u32, height: u32)

  /** Each pixel of the picture read straight from the framebuffer. */
  ghost predicate IsSampled(p: Picture, rgba: bytes, width: nat, g: Region) {
    && p.width > 0 && p.height > 0 && |p.pixels| == Size(p.width, p.height)
    && forall i, j :: 0 <= i < p.width && 0 <= j < p.height ==>
         && Offset(p.width, i, j) + 4 <= |p.pixels|
         && Offset(width, g.x + Nearest(i, g.width, p.width), g.y + Nearest(j, g.height, p.height)) + 4 <= |rgba|
         && PixelAt(p.pixels, p.width, i, j)
            == PixelAt(rgba, width, g.x + Nearest(i, g.width, p.width), g.y + Nearest(j, g.height, p.height))
  }

  predicate Limited(width: u32, maxWidth: Option<u32>) {
    maxWidth.Some? && maxWidth.value > 0 && width > maxWidth.value
  }

  /** The size of the picture made of a region. */
  function PictureSize(g: Region, maxWidth: Option<u32>): (r: (nat, nat))
    requires g.width > 0
  {
    if Limited(g.width, maxWidth) then (maxWidth.value, TargetHeight(g.width, g.height, maxWidth.value))
    else (g.width, g.height)
  }

  /**
   * encode up to the encoders. A picture is made exactly when the framebuffer has the size of
   * a desktop and the region touches it; cropping and then scaling reads the same pixels as
   * sampling the framebuffer directly.
   */
  method MakePicture(rgba: bytes, width: u32, height: u32, maxWidth: Option<u32>, requested: Option<Region>)
    returns (r: Option<Picture>)
    ensures r.Some? <==> width > 0 && height > 0 && |rgba| == Size(width, height)
                         && ClampRegion(requested, width, height).Some?
    ensures r.Some? ==>
              var g := ClampRegion(requested, width, height).value;
              && Inside(g, width, height) && (r.value.width, r.value.height) == PictureSize(g, maxWidth)
              && r.value.width == (if maxWidth.Some? && 0 < maxWidth.value < g.width then maxWidth.value else g.width)
              && (if maxWidth.Some? && 0 < maxWidth.value < g.width
                  then Proportional(r.value.height, g.width, g.height, maxWidth.value)
                  else r.value.height == g.height)
              && IsSampled(r.value, rgba, width, g)
  {
    hide IsCrop, IsScaled, IsSampled, TargetHeight, Size, ClampRegion, Limited, Proportional;
    if width == 0 || height == 0 || |rgba| != Size(width, height) {
      return None;
    }
    var clamped := ClampRegion(requested, width, height);
    if clamped.None? {
      return None;
    }
    var g := clamped.value;
    var pixels := CropRgba(rgba, width, height, g);
    if Limited(g.width, maxWidth) {
      LimitIsSmaller(g.width, maxWidth);
      var limit := maxWidth.value;
      TargetHeightBounds(g.width, g.height, limit);
      TargetHeightIsRounded(g.width, g.height, limit);
      var targetHeight := TargetHeight(g.width, g.height, limit);
      var cropped := pixels[..];
      pixels := ResizeNearest(cropped, g.width, g.height, limit, targetHeight);
      ScaledCrop(rgba, width, g, cropped, Picture(pixels[..], limit, targetHeight));
      return Some(Picture(pixels[..], limit, targetHeight));
    }
    NoLimit(g.width, maxWidth);
    PlainCrop(rgba, width, g, pixels[..]);
    return Some(Picture(pixels[..], g.width, g.height));
  }

  lemma LimitIsSmaller(width: u32, maxWidth: Option<u32>)
    requires Limited(width, maxWidth)
    ensures maxWidth.Some? && 0 < maxWidth.value < width
  {}

  lemma NoLimit(width: u32, maxWidth: Option<u32>)
    requires !Limited(width, maxWidth)
    ensures !(maxWidth.Some? && 0 < maxWidth.value < width)
  {}

  lemma SampledOf(p: Picture, rgba: bytes, width: nat, g: Region)
    requires p.width > 0 && p.height > 0 && |p.pixels| == Size(p.width, p.height)
    requires forall i, j :: 0 <= i < p.width && 0 <= j < p.height ==>
         && Offset(p.width, i, j) + 4 <= |p.pixels|
         && Offset(width, g.x + Nearest(i, g.width, p.width), g.y + Nearest(j, g.height, p.height)) + 4 <= |rgba|
         && PixelAt(p.pixels, p.width, i, j)
            == PixelAt(rgba, width, g.x + Nearest(i, g.width, p.width), g.y + Nearest(j, g.height, p.height))
    ensures IsSampled(p, rgba, width, g)
  {}

  lemma ScaledCrop(rgba: bytes, width: nat, g: Region, cropped: bytes, p: Picture)
    requires g.width > 0 && g.height > 0 && p.width > 0 && p.height > 0
    requires IsCrop(cropped, rgba, width, g, g.height) && |p.pixels| == Size(p.width, p.height)
    requires IsScaled(p.pixels, cropped, g.width, g.height, p.width, p.height, 0, p.height)
    ensures IsSampled(p, rgba, width, g)
  {
    hide IsCrop, IsScaled, IsSampled, Nearest, PixelAt, Offset, Size;
    forall i, j | 0 <= i < p.width && 0 <= j < p.height
      ensures Offset(p.width, i, j) + 4 <= |p.pixels|
      ensures Offset(width, g.x + Nearest(i, g.width, p.width), g.y + Nearest(j, g.height, p.height)) + 4 <= |rgba|
      ensures PixelAt(p.pixels, p.width, i, j)
           == PixelAt(rgba, width, g.x + Nearest(i, g.width, p.width), g.y + Nearest(j, g.height, p.height))
    {
      var x, y := Nearest(i, g.width, p.width), Nearest(j, g.height, p.height);
      NearestInRange(i, g.width, p.width);
      NearestInRange(j, g.height, p.height);
      ScaledPixel(p.pixels, cropped, g.width, g.height, p.width, p.height, i, j);
      CropPixel(cropped, rgba, width, g, g.height, x, y);
    }
    SampledOf(p, rgba, width, g);
  }

  lemma SameSide(i: nat, side: nat)
    requires i < side
    ensures Nearest(i, side, side) == i
  {
    DivBounds(i * side, side);
    var q := Nearest(i, side, side);
    if q < i { RowsBefore(q, i, side); }
    if q > i { RowsBefore(i, q, side); }
  }

  lemma PlainCrop(rgba: bytes, width: nat, g: Region, cropped: bytes)
    requires g.width > 0 && g.height > 0
    requires IsCrop(cropped, rgba, width, g, g.height) && |cropped| == Size(g.width, g.height)
    ensures IsSampled(Picture(cropped, g.width, g.height), rgba, width, g)
  {
    hide IsCrop, IsSampled, Nearest, PixelAt, Offset, Size;
    var p := Picture(cropped, g.width, g.height);
    forall i, j | 0 <= i < p.width && 0 <= j < p.height
      ensures Offset(p.width, i, j) + 4 <= |p.pixels|
      ensures Offset(width, g.x + Nearest(i, g.width, p.width), g.y + Nearest(j, g.height, p.height)) + 4 <= |rgba|
      ensures PixelAt(p.pixels, p.width, i, j)
           == PixelAt(rgba, width, g.x + Nearest(i, g.width, p.width), g.y + Nearest(j, g.height, p.height))
    {
      SameSide(i, g.width);
      SameSide(j, g.height);
      CropPixel(cropped, rgba, width, g, g.height, i, j);
    }
    SampledOf(p, rgba, width, g);
  }

  /** In a picture scaled down, different pixels show different pixels of the framebuffer. */
  lemma SamplesDiffer(width: nat, g: Region, tw: nat, th: nat, i: nat, j: nat, i': nat, j': nat)
    requires 0 < tw <= g.width && 0 < th <= g.height && g.x + g.width <= width
    requires i < tw && i' < tw && j < th && j' < th && (i, j) != (i', j')
    ensures Offset(width, g.x + Nearest(i, g.width, tw), g.y + Nearest(j, g.height, th))
         != Offset(width, g.x + Nearest(i', g.width, tw), g.y + Nearest(j', g.height, th))
  {
    hide Nearest;
    if i < i' { NearestIsInjective(i, i', g.width, tw); }
    if i' < i { NearestIsInjective(i', i, g.width, tw); }
    if j < j' { NearestIsInjective(j, j', g.height, th); }
    if j' < j { NearestIsInjective(j', j, g.height, th); }
    NearestInRange(i, g.width, tw);
    NearestInRange(i', g.width, tw);
    PlacesDiffer(width, g.x + Nearest(i, g.width, tw), g.y + Nearest(j, g.height, th),
                 g.x + Nearest(i', g.width, tw), g.y + Nearest(j', g.height, th));
  }

  lemma PlacesDiffer(width: nat, x: nat, y: nat, x': nat, y': nat)
    requires x < width && x' < width && (x, y) != (x', y')
    ensures Offset(width, x, y) != Offset(width, x', y')
  {
    if y < y' { RowsBefore(y, y', width); }
    if y' < y { RowsBefore(y', y, width); }
  }

  /** Images of the same pixels are the same. */
  lemma SameImage(a: bytes, b: bytes, width: nat, height: nat)
    requires width > 0 && |a| == |b| == Size(width, height)
    requires forall i, j :: 0 <= i < width && 0 <= j < height ==> SamePixel(a, b, width, i, j)
    ensures a == b
  {
    hide SamePixel, Size;
    forall k | 0 <= k < |a| ensures a[k] == b[k] {
      var i, j := k / 4 % width, k / 4 / width;
      PixelOfByte(k, width, height);
      assert SamePixel(a, b, width, i, j);
      SameByte(a, b, width, i, j, k % 4);
    }
  }

  ghost predicate SamePixel(a: bytes, b: bytes, width: nat, i: nat, j: nat) {
    && Offset(width, i, j) + 4 <= |a| && Offset(width, i, j) + 4 <= |b|
    && PixelAt(a, width, i, j) == PixelAt(b, width, i, j)
  }

  lemma SameByte(a: bytes, b: bytes, width: nat, i: nat, j: nat, e: nat)
    requires SamePixel(a, b, width, i, j) && e < 4
    ensures Offset(width, i, j) + e < |a| && Offset(width, i, j) + e < |b|
    ensures a[Offset(width, i, j) + e] == b[Offset(width, i, j) + e]
  {
    hide Offset;
    assert PixelAt(a, width, i, j)[e] == PixelAt(b, width, i, j)[e];
  }

  lemma PixelOfByte(k: nat, width: nat, height: nat)
    requires width > 0 && k < Size(width, height)
    ensures k / 4 % width < width && k / 4 / width < height
    ensures Offset(width, k / 4 % width, k / 4 / width) + k % 4 == k
  {
    var p := k / 4;
    assert p == p / width * width + p % width;
    assert p < width * height;
    assert p / width * width < height * width;
    LessFactor(p / width, height, width);
  }

  /** A picture of a whole framebuffer, unscaled, is that framebuffer. */
  lemma WholePicture(p: Picture, rgba: bytes)
    requires p.width > 0 && p.height > 0 && |rgba| == Size(p.width, p.height)
    requires IsSampled(p, rgba, p.width, Region(0, 0, p.width, p.height))
    ensures p.pixels == rgba
  {
    hide Nearest, Size, Offset, PixelAt;
    forall i, j | 0 <= i < p.width && 0 <= j < p.height
      ensures SamePixel(p.pixels, rgba, p.width, i, j)
    {
      SameSide(i, p.width);
      SameSide(j, p.height);
    }
    SameImage(p.pixels, rgba, p.width, p.height);
  }

  // ----- dropping alpha

  /** rgba_to_rgb, pixel by pixel. */
  function Rgb(rgba: bytes): (s: bytes)
    ensures |s| == |rgba| / 4 * 3
  {
    if |rgba| < 4 then [] else rgba[..3] + Rgb(rgba[4..])
  }

  method RgbaToRgb(rgba: bytes) returns (rgb: bytes)
    ensures rgb == Rgb(rgba)
  {
    rgb := [];
    var i := 0;
    assert rgba[0..] == rgba;
    while i + 4 <= |rgba|
      invariant 0 <= i <= |rgba|
      invariant Rgb(rgba) == rgb + Rgb(rgba[i..])
    {
      assert rgba[i..][4..] == rgba[i + 4..];
      assert rgba[i..][..3] == rgba[i..i + 3];
      rgb := rgb + rgba[i..i + 3];
      i := i + 4;
    }
  }

  /** Pixel k keeps its colours. */
  lemma {:induction false} RgbPixel(rgba: bytes, k: nat)
    requires (k + 1) * 4 <= |rgba|
    ensures k * 3 + 3 <= |Rgb(rgba)| && Rgb(rgba)[k * 3..k * 3 + 3] == rgba[k * 4..k * 4 + 3]
    decreases k
  {
    if k > 0 {
      RgbPixel(rgba[4..], k - 1);
      var rest := Rgb(rgba[4..]);
      assert Rgb(rgba)[k * 3..k * 3 + 3] == rest[(k - 1) * 3..(k - 1) * 3 + 3];
      assert rgba[4..][(k - 1) * 4..(k - 1) * 4 + 3] == rgba[k * 4..k * 4 + 3];
    }
  }
}
