/** connection.c: what the native side sends when the desktop was painted. */
module Connection {
  import opened Bytes
  import opened Framing
  import opened NativeOutput
  import opened Pixels
  import opened Paint
  import opened SerdeJson

  /** C's cast from UINT32 to INT32. */
  function ToInt32(n: u32): (i: int)
    ensures IsInt32(i)
  {
    if n < 0x8000_0000 then n else n - 0x1_0000_0000
  }

  class Gdi {
    var width: int
    var height: int
    var stride: int
    var primaryBuffer: array<byte>

    constructor (width: nat, height: nat, buffer: array<byte>)
      requires buffer.Length == height * (width * 4)
      ensures this.width == width && this.height == height && stride == width * 4 && primaryBuffer == buffer
      ensures Valid()
    {
      this.width, this.height, this.stride, this.primaryBuffer := width, height, width * 4, buffer;
    }

    ghost predicate Valid()
      reads this, primaryBuffer
    {
      width >= 0 && height >= 0 && stride >= 0 && Desktop().Valid()
    }

    ghost function Desktop(): (r: Image)
      requires width >= 0 && height >= 0 && stride >= 0
      reads this, primaryBuffer
    {
      Image(width, height, stride, primaryBuffer[..])
    }

    /** The conversion loops of cb_end_paint. */
    method ConvertRect(c: Rect) returns (rgba: array<byte>)
      requires Valid() && Fits(Desktop(), c)
      ensures fresh(rgba) && rgba[..] == RectPixels(Desktop(), c, c.h)
    {
      hide RectPixels, Desktop;
      var rowBytes := c.w * 4;
      rgba := new byte[c.h * rowBytes];
      var row := 0;
      assert 0 * rowBytes == 0;
      NoRows(Desktop(), c);
      while row < c.h
        invariant 0 <= row <= c.h
        invariant row * rowBytes <= rgba.Length
        invariant rgba[..row * rowBytes] == RectPixels(Desktop(), c, row)
      {
        RowCount(row + 1, rowBytes);
        RowsEnd(row, c.h, rowBytes);
        ConvertRow(c, row, rgba);
        row := row + 1;
      }
      assert row == c.h;
    }

    lemma RowsEnd(row: nat, rows: nat, rowBytes: nat)
      requires row < rows
      ensures row * rowBytes + rowBytes <= rows * rowBytes
    {
      RowsBefore(row, rows, rowBytes);
    }

    /** One row: BGRX becomes RGBA. */
    method ConvertRow(c: Rect, row: nat, rgba: array<byte>)
      requires Valid() && Fits(Desktop(), c) && row < c.h && rgba != primaryBuffer
      requires row * (c.w * 4) + c.w * 4 <= rgba.Length
      requires rgba[..row * (c.w * 4)] == RectPixels(Desktop(), c, row)
      modifies rgba
      ensures rgba[..(row + 1) * (c.w * 4)] == RectPixels(Desktop(), c, row + 1)
    {
      hide RowPixels, RectPixels, Image.Valid, Fits;
      RowWritten(Desktop(), c, row);
      ConvertPixels((c.y + row) * stride + c.x * 4, row * (c.w * 4), c.w, rgba);
    }

    lemma RowWritten(image: Image, c: Rect, row: nat)
      requires Fits(image, c) && row < c.h
      ensures c.w >= 0 && (c.y + row) * image.stride + c.x * 4 >= 0 && row * (c.w * 4) >= 0
      ensures (row + 1) * (c.w * 4) == row * (c.w * 4) + c.w * 4
      ensures (c.y + row) * image.stride + c.x * 4 + c.w * 4 <= |image.bytes|
      ensures RectPixels(image, c, row + 1)
           == RectPixels(image, c, row) + RowPixels(image.bytes, (c.y + row) * image.stride + c.x * 4, c.w)
    {
      hide RowPixels;
      RowInside(image, c, row);
      RowCount(row + 1, c.w * 4);
    }

    /** The inner loop: `w` pixels from `src` to `dst`. */
    method ConvertPixels(src: nat, dst: nat, w: nat, rgba: array<byte>)
      requires src + w * 4 <= primaryBuffer.Length && dst + w * 4 <= rgba.Length && rgba != primaryBuffer
      modifies rgba
      ensures rgba[..dst + w * 4] == old(rgba[..dst]) + RowPixels(primaryBuffer[..], src, w)
    {
      hide RowPixels;
      ghost var buf, done := primaryBuffer[..], rgba[..dst];
      var s, d := src, dst;
      var col := 0;
      NoPixels(buf, src);
      assert done + [] == done;
      while col < w
        invariant 0 <= col <= w
        invariant s == src + col * 4 && d == dst + col * 4
        invariant primaryBuffer[..] == buf
        invariant rgba[..d] == done + RowPixels(buf, src, col)
      {
        ghost var before := rgba[..d];
        rgba[d] := primaryBuffer[s + 2];
        rgba[d + 1] := primaryBuffer[s + 1];
        rgba[d + 2] := primaryBuffer[s];
        rgba[d + 3] := 255;
        assert rgba[..d + 4] == before + Rgba(buf, s);
        OneMorePixel(buf, src, col);
        Associate(done, RowPixels(buf, src, col), Rgba(buf, s));
        s, d, col := s + 4, d + 4, col + 1;
      }
    }

    /**
     * cb_end_paint: one message with the painted part of the desktop, or none when that part
     * is empty. Coordinates are cut to 16 bits.
     */
    method EndPaint(invalid: Option<Rect>, output: Output) returns (ok: bool)
      requires Valid()
      modifies output.writer
      ensures ok ==> output.writer.written == old(output.writer.written) + Painted(Desktop(), invalid, output)
    {
      assert output.writer.written + [] == output.writer.written;
      if invalid.None? {
        return true;
      }
      var clipped := Clip(invalid.value, width, height);
      if clipped.None? {
        return true;
      }
      var c := clipped.value;
      var rgba := ConvertRect(c);
      ok := output.SendBitmap(c.x % 0x1_0000, c.y % 0x1_0000, c.w % 0x1_0000, c.h % 0x1_0000, rgba[..]);
    }

    /**
     * cb_desktop_resize: the buffer is replaced, when it has to be and can be, before the new
     * size is announced. When it cannot be replaced the old desktop stays and the new size is
     * announced all the same.
     */
    method DesktopResize(w: u32, h: u32, output: Output) returns (ok: bool)
      requires Valid()
      modifies this, output.writer
      ensures Valid() && (primaryBuffer == old(primaryBuffer) || fresh(primaryBuffer))
      ensures (width == ToInt32(w) && height == ToInt32(h)) || Desktop() == old(Desktop())
      ensures ok ==> output.writer.written
                     == old(output.writer.written) + Encode(MSG_RESIZED, DimensionsText(ToInt32(w), ToInt32(h)), [])
    {
      hide DimensionsText, Encode;
      if width != ToInt32(w) || height != ToInt32(h) {
        var resized: bool := *;
        if resized && ToInt32(w) >= 0 && ToInt32(h) >= 0 {
          width, height, stride := ToInt32(w), ToInt32(h), ToInt32(w) * 4;
          primaryBuffer := new byte[height * stride](_ => 0);
        }
      }
      DimensionsTextIsShort(ToInt32(w), ToInt32(h));
      ok := output.Send(MSG_RESIZED, DimensionsText(ToInt32(w), ToInt32(h)));
    }
  }

  lemma NoRows(image: Image, c: Rect)
    requires Fits(image, c)
    ensures RectPixels(image, c, 0) == []
  {}

  lemma NoPixels(buf: bytes, o: nat)
    requires o <= |buf|
    ensures RowPixels(buf, o, 0) == []
  {}

  lemma OneMorePixel(buf: bytes, o: nat, n: nat)
    requires o + (n + 1) * 4 <= |buf|
    ensures RowPixels(buf, o, n + 1) == RowPixels(buf, o, n) + Rgba(buf, o + n * 4)
  {}

  /** What cb_end_paint puts on the stream for a dirty rectangle. */
  ghost function Painted(image: Image, invalid: Option<Rect>, output: Output): (r: bytes)
    requires image.Valid()
  {
    if invalid.None? then []
    else
      match Clip(invalid.value, image.width, image.height)
      case None => []
      case Some(c) =>
        Encode(MSG_BITMAP_UPDATE,
               BitmapHeader(c.x % 0x1_0000, c.y % 0x1_0000, c.w % 0x1_0000, c.h % 0x1_0000),
               output.SentPixels(RectPixels(image, c, c.h)))
  }
}
