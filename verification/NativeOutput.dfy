/** output.c: how the native side hands its messages to the stream. */
module NativeOutput {
  import opened Bytes
  import opened Framing
  import opened WorkerStream

  type u16 = n: nat | n < 0x1_0000

  /** The sub-header of a bitmap message. */
  function BitmapHeader(x: u16, y: u16, w: u16, h: u16): (s: bytes)
    ensures |s| == 8
  {
    U16Bytes(x) + U16Bytes(y) + U16Bytes(w) + U16Bytes(h)
  }

  lemma BitmapHeaderFields(x: u16, y: u16, w: u16, h: u16)
    ensures var s := BitmapHeader(x, y, w, h);
            && s[0] as nat + 256 * s[1] as nat == x && s[2] as nat + 256 * s[3] as nat == y
            && s[4] as nat + 256 * s[5] as nat == w && s[6] as nat + 256 * s[7] as nat == h
  {
    U16RoundTrip(x);
    U16RoundTrip(y);
    U16RoundTrip(w);
    U16RoundTrip(h);
  }

  class Output {
    /** The library hands messages to a callback; the program writes them itself. */
    const callback: bool
    const writer: Writer

    constructor (callback: bool, writer: Writer)
      ensures this.callback == callback && this.writer == writer
    {
      this.callback, this.writer := callback, writer;
    }

    /** output_send */
    method Send(kind: u32, payload: bytes) returns (ok: bool)
      requires |payload| < 0x1_0000_0000
      modifies writer
      ensures ok ==> writer.written == old(writer.written) + Encode(kind, payload, [])
    {
      if callback {
        ok := WriteMessage(writer, kind, payload, []);
        return;
      }
      ghost var before := writer.written;
      ok := writer.WriteAll(Header(kind, |payload|));
      if ok && |payload| > 0 {
        ok := writer.WriteAll(payload);
      }
      assert before + Header(kind, |payload|) + payload == before + Encode(kind, payload, []);
    }

    /** What output_send_bitmap sends of the pixels: the callback gets their length in 32 bits. */
    function SentPixels(rgba: bytes): (s: bytes)
      ensures |rgba| < 0x1_0000_0000 ==> s == rgba
    {
      if callback then rgba[..|rgba| % 0x1_0000_0000] else rgba
    }

    /**
     * output_send_bitmap: both ways put the same bytes on the stream, the header and the
     * pixels in one message, as long as their length fits 32 bits.
     */
    method SendBitmap(x: u16, y: u16, w: u16, h: u16, rgba: bytes) returns (ok: bool)
      modifies writer
      ensures ok ==> writer.written
                     == old(writer.written) + Encode(MSG_BITMAP_UPDATE, BitmapHeader(x, y, w, h), SentPixels(rgba))
    {
      hide Header, U16Bytes;
      ghost var before := writer.written;
      // The header takes the last 32 bits of it.
      var payloadLength := 8 + |rgba|;
      var sub := BitmapHeader(x, y, w, h);
      if callback {
        ok := WriteMessage(writer, MSG_BITMAP_UPDATE, sub, rgba[..|rgba| % 0x1_0000_0000]);
        return;
      }
      ok := writer.WriteAll(Header(MSG_BITMAP_UPDATE, payloadLength));
      if !ok {
        return;
      }
      ok := writer.WriteAll(sub);
      if ok && |rgba| > 0 {
        ok := writer.WriteAll(rgba);
      }
      if ok {
        Associate(before, Header(MSG_BITMAP_UPDATE, payloadLength), sub + rgba);
        Associate(before + Header(MSG_BITMAP_UPDATE, payloadLength), sub, rgba);
        assert |rgba| == 0 ==> sub + rgba == sub;
      }
    }
  }
}
