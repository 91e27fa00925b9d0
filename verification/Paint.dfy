/** cb_end_paint: the dirty rectangle, clipped to the desktop and turned from BGRX to RGBA. */
module Paint {
  import opened Bytes
  import opened Pixels

  datatype Rect = Rect(x: int, y: int, w: int, h: int) {
    predicate Contains(px: int, py: int) {
      x <= px < x + w && y <= py < y + h
    }
  }

  /** The clipping of cb_end_paint: None when nothing is left to send. */
  function Clip(r: Rect, dw: int, dh: int): (c: Option<Rect>)
    ensures c.Some? ==>
              && 0 <= c.value.x && 0 <= c.value.y && 0 < c.value.w && 0 < c.value.h
              && c.value.x + c.value.w <= dw && c.value.y + c.value.h <= dh
  {
    if dw <= 0 || dh <= 0 then None
    else
      var (x, w) := if r.x < 0 then (0, r.w + r.x) else (r.x, r.w);
      var (y, h) := if r.y < 0 then (0, r.h + r.y) else (r.y, r.h);
      var w' := if x + w > dw then dw - x else w;
      var h' := if y + h > dh then dh - y else h;
      if w' <= 0 || h' <= 0 then None else Some(Rect(x, y, w', h'))
  }

  /** What is sent is the part of the rectangle that lies on the desktop. */
  lemma ClipIsIntersection(r: Rect, dw: int, dh: int, px: int, py: int)
    ensures (Clip(r, dw, dh).Some? && Clip(r, dw, dh).value.Contains(px, py))
            <==> r.Contains(px, py) && 0 <= px < dw && 0 <= py < dh
  {}

  /** The RGBA form of the BGRX pixel at `o`. */
  function Rgba(buf: bytes, o: nat): (s: bytes)
    requires o + 4 <= |buf|
    ensures |s| == 4
  {
    [buf[o + 2], buf[o + 1], buf[o], 255]
  }

  /** The GDI buffer: rows of `stride` bytes. */
  datatype Image = Image(width: nat, height: nat, stride: nat, bytes: bytes) {
    ghost predicate Valid() {
      width * 4 <= stride && |bytes| == height * stride
    }

    lemma PixelInside(x: nat, y: nat)
      requires Valid() && x < width && y < height
      ensures y * stride + x * 4 + 4 <= |bytes|
    {
      RowsBefore(y, height, stride);
    }
  }

  /** `n` converted pixels from the source offset `o` on. */
  function RowPixels(buf: bytes, o: nat, n: nat): (s: bytes)
    requires o + n * 4 <= |buf|
    ensures |s| == n * 4
  {
    if n == 0 then [] else RowPixels(buf, o, n - 1) + Rgba(buf, o + (n - 1) * 4)
  }

  ghost predicate Fits(image: Image, c: Rect) {
    && image.Valid() && 0 <= c.x && 0 <= c.y && 0 <= c.w && 0 <= c.h
    && c.x + c.w <= image.width && c.y + c.h <= image.height
  }

  lemma RowInside(image: Image, c: Rect, row: nat)
    requires Fits(image, c) && row < c.h
    ensures (c.y + row) * image.stride + c.x * 4 + c.w * 4 <= |image.bytes|
  {
    RowsBefore(c.y + row, image.height, image.stride);
  }

  /** The first `n` rows of the rectangle `c`, converted. */
  ghost function RectPixels(image: Image, c: Rect, n: nat): (s: bytes)
    requires Fits(image, c) && n <= c.h
    ensures |s| == n * (c.w * 4)
  {
    if n == 0 then []
    else
      RowInside(image, c, n - 1);
      RowCount(n, c.w * 4);
      RectPixels(image, c, n - 1) + RowPixels(image.bytes, (c.y + n - 1) * image.stride + c.x * 4, c.w)
  }

  lemma RowCount(n: nat, rowBytes: nat)
    requires n > 0
    ensures n * rowBytes == (n - 1) * rowBytes + rowBytes
  {}

  lemma {:induction false} RowPixelAt(buf: bytes, o: nat, n: nat, i: nat)
    requires o + n * 4 <= |buf| && i < n
    ensures RowPixels(buf, o, n)[i * 4..i * 4 + 4] == Rgba(buf, o + i * 4)
    decreases n
  {
    var s := RowPixels(buf, o, n);
    if i < n - 1 {
      RowPixelAt(buf, o, n - 1, i);
      assert s[i * 4..i * 4 + 4] == RowPixels(buf, o, n - 1)[i * 4..i * 4 + 4];
    } else {
      assert s[i * 4..i * 4 + 4] == Rgba(buf, o + i * 4);
    }
  }

  lemma SliceOfConcat(a: bytes, b: bytes, o: nat)
    ensures o + 4 <= |a| ==> (a + b)[o..o + 4] == a[o..o + 4]
    ensures |a| <= o && o + 4 <= |a| + |b| ==> (a + b)[o..o + 4] == b[o - |a|..o - |a| + 4]
  {}

  lemma OffsetInRows(w: nat, i: nat, j: nat, n: nat)
    requires i < w && j < n
    ensures Offset(w, i, j) + 4 <= n * (w * 4)
    ensures Offset(w, i, j) >= j * (w * 4)
  {
    RowsBefore(j, n, w * 4);
    assert j * w * 4 == j * (w * 4);
  }

  /**
   * The pixel (i, j) of the converted rectangle is the desktop's pixel under it: red, green and
   * blue from the third, second and first of its bytes, and opaque.
   */
  lemma {:induction false} RectPixelAt(image: Image, c: Rect, n: nat, i: nat, j: nat)
    requires Fits(image, c) && n <= c.h && i < c.w && j < n
    ensures var s, d, o := RectPixels(image, c, n), (j * c.w + i) * 4, (c.y + j) * image.stride + (c.x + i) * 4;
            && 0 <= d && d + 4 <= |s| && 0 <= o && o + 4 <= |image.bytes|
            && s[d] == image.bytes[o + 2] && s[d + 1] == image.bytes[o + 1] && s[d + 2] == image.bytes[o]
            && s[d + 3] == 255
    decreases n
  {
    hide RowPixels, Rgba, Offset;
    OffsetInRows(c.w, i, j, n);
    RowInside(image, c, n - 1);
    var before := RectPixels(image, c, n - 1);
    var row := RowPixels(image.bytes, (c.y + n - 1) * image.stride + c.x * 4, c.w);
    var d := Offset(c.w, i, j);
    OffsetIs(c.w, i, j);
    if j < n - 1 {
      OffsetInRows(c.w, i, j, n - 1);
      RectPixelAt(image, c, n - 1, i, j);
      assert (before + row)[d] == before[d] && (before + row)[d + 1] == before[d + 1];
      assert (before + row)[d + 2] == before[d + 2] && (before + row)[d + 3] == before[d + 3];
    } else {
      LastRowPixel(image, c, j, i, |before|);
      FourOf(before, row, i * 4);
    }
  }

  lemma OffsetIs(w: nat, i: nat, j: nat)
    ensures Offset(w, i, j) == (j * w + i) * 4
  {}

  lemma FourOf(before: bytes, row: bytes, k: nat)
    requires k + 4 <= |row|
    ensures var s, o := before + row, |before| + k;
            s[o] == row[k] && s[o + 1] == row[k + 1] && s[o + 2] == row[k + 2] && s[o + 3] == row[k + 3]
  {}

  lemma FourInSlice(s: bytes, o: nat)
    requires o + 4 <= |s|
    ensures var t := s[o..o + 4]; s[o] == t[0] && s[o + 1] == t[1] && s[o + 2] == t[2] && s[o + 3] == t[3]
  {}

  lemma RowOffset(w: nat, i: nat, j: nat)
    ensures Offset(w, i, j) == j * (w * 4) + i * 4
  {
    assert j * w * 4 == j * (w * 4);
  }

  lemma FitsParts(image: Image, c: Rect, j: nat)
    requires Fits(image, c) && j < c.h
    ensures 0 <= c.x && 0 <= c.y && 0 <= c.w && (c.y + j) * image.stride >= 0
  {}

  lemma LastRowPixel(image: Image, c: Rect, j: nat, i: nat, before: nat)
    requires Fits(image, c) && i < c.w && j < c.h && before == j * (c.w * 4)
    ensures Offset(c.w, i, j) == before + i * 4
    ensures (c.y + j) * image.stride + c.x * 4 + c.w * 4 <= |image.bytes|
    ensures var row, o := RowPixels(image.bytes, (c.y + j) * image.stride + c.x * 4, c.w),
                          (c.y + j) * image.stride + (c.x + i) * 4;
            && 0 <= o && row[i * 4] == image.bytes[o + 2] && row[i * 4 + 1] == image.bytes[o + 1]
            && row[i * 4 + 2] == image.bytes[o] && row[i * 4 + 3] == 255
  {
    hide RowPixels, Fits;
    FitsParts(image, c, j);
    RowInside(image, c, j);
    RowOffset(c.w, i, j);
    var o := (c.y + j) * image.stride + c.x * 4;
    var row := RowPixels(image.bytes, o, c.w);
    RowPixelAt(image.bytes, o, c.w, i);
    FourInSlice(row, i * 4);
  }
}
