/** session.rs: the state behind a session's lock, changed in place. */
module SessionCallbacks {
  import opened Bytes
  import opened Framing
  import opened WorkerStream
  import opened Pixels
  import opened SerdeJson
  import opened Session

  class CallbackState {
    var connected: bool
    var disconnected: bool
    var width: nat
    var height: nat
    var framebuffer: array<byte>
    var hasFrame: bool
    var frameVersion: nat
    var error: Option<bytes>

    constructor ()
      ensures View() == INITIAL && fresh(framebuffer)
    {
      connected, disconnected, width, height := false, false, 0, 0;
      framebuffer, hasFrame, frameVersion, error := new byte[0], false, 0, None;
    }

    ghost function View(): (r: State)
      reads this, framebuffer
    {
      State(connected, disconnected, width, height, framebuffer[..], hasFrame, frameVersion, error)
    }

    /** CallbackState::stop */
    method StopWith(reason: Option<bytes>)
      modifies this
      ensures View() == Stopped(old(View()), reason) && fresh(framebuffer)
    {
      if !disconnected && error.None? {
        error := reason;
      }
      connected := false;
      disconnected := true;
      framebuffer := new byte[0];
      hasFrame := false;
    }

    /** handle_native_output */
    method HandleNativeOutput(kind: u32, a: bytes, b: bytes)
      requires Valid(View())
      modifies this, framebuffer
      ensures View() == Step(old(View()), Event(kind, a, b))
      ensures framebuffer == old(framebuffer) || fresh(framebuffer)
    {
      hide Blit, Dimensions, TextField, HeaderArea, Size;
      if kind == MSG_DISCONNECTED {
        StopWith(TextField(a, ERROR));
        return;
      }
      if disconnected {
        return;
      }
      if kind == MSG_READY {
        connected := true;
      } else if kind == MSG_CONNECTED || kind == MSG_RESIZED {
        ResizeTo(a);
      } else if kind == MSG_BITMAP_UPDATE {
        PaintBitmap(a, b);
      } else if kind == MSG_ERROR {
        var message := TextField(a, MESSAGE);
        error := if message.Some? then message else Some(UNKNOWN_ERROR);
      }
    }

    method ResizeTo(payload: bytes)
      modifies this
      ensures View() == Resized(old(View()), payload)
      ensures framebuffer == old(framebuffer) || fresh(framebuffer)
    {
      hide Dimensions, Size;
      var dimensions := Dimensions(payload);
      match dimensions
      case None =>
      case Some((w, h)) =>
        if 1 <= w <= MAX_SIDE && 1 <= h <= MAX_SIDE {
          width, height := w, h;
          framebuffer := new byte[Size(w, h)](_ => 0);
          assert framebuffer[..] == Zeros(Size(w, h));
          hasFrame := false;
        }
    }

    /** apply_bitmap */
    method PaintBitmap(header: bytes, pixels: bytes)
      requires Valid(View()) && !disconnected
      modifies this, framebuffer
      ensures View() == ApplyBitmap(old(View()), header, pixels) && framebuffer == old(framebuffer)
    {
      hide Blit, Size, Valid, U16At;
      if |header| != 8 || width == 0 || height == 0 {
        return;
      }
      var x, y, w, h := U16At(header, 0), U16At(header, 2), U16At(header, 4), U16At(header, 6);
      if |pixels| != Size(w, h) {
        error := Some(INVALID_BITMAP);
        return;
      }
      var copyWidth := Min(w, if x < width then width - x else 0);
      var copyHeight := Min(h, if y < height then height - y else 0);
      if copyWidth == 0 || copyHeight == 0 {
        return;
      }
      ValidSize(View());
      VisibleRowsFit(View(), Area(x, y, w, h), pixels);
      CopyRows(x, y, pixels, w, copyWidth, copyHeight);
      frameVersion := frameVersion + 1;
      hasFrame := true;
    }

    lemma ValidSize(s: State)
      requires Valid(s) && !s.disconnected
      ensures |s.framebuffer| == Size(s.width, s.height)
    {}

    /** The rows of a bitmap copied into the framebuffer. */
    method CopyRows(x: nat, y: nat, pixels: bytes, w: nat, cw: nat, ch: nat)
      requires cw <= w && x + cw <= width
      requires ch * (w * 4) <= |pixels| && Size(width, y + ch) <= framebuffer.Length
      modifies framebuffer
      ensures framebuffer[..] == Blit(old(framebuffer[..]), width, x, y, pixels, w, cw, ch)
    {
      hide Blit, Splice, Offset, Size;
      ghost var before := framebuffer[..];
      var row := 0;
      FitsFewerRows(width, x, y, pixels, w, cw, ch, 0, before);
      NoRowsBlit(before, width, x, y, pixels, w, cw);
      while row < ch
        invariant 0 <= row <= ch
        invariant row * (w * 4) <= |pixels| && Size(width, y + row) <= |before|
        invariant framebuffer[..] == Blit(before, width, x, y, pixels, w, cw, row)
      {
        FitsFewerRows(width, x, y, pixels, w, cw, ch, row + 1, before);
        RowsFit(width, x, y, row + 1, w, cw);
        OneRowBlit(before, width, x, y, pixels, w, cw, row + 1);
        CopyBytes(framebuffer, Offset(width, x, y + row), pixels, row * (w * 4), cw * 4);
        row := row + 1;
      }
    }

    lemma FitsFewerRows(frameWidth: nat, x: nat, y: nat, pixels: bytes, w: nat, cw: nat, ch: nat, n: nat, f: bytes)
      requires ch * (w * 4) <= |pixels| && Size(frameWidth, y + ch) <= |f| && n <= ch
      ensures n * (w * 4) <= |pixels| && Size(frameWidth, y + n) <= |f|
    {
      Scaled(n, ch, w * 4);
      Scaled(y + n, y + ch, frameWidth);
      assert (y + n) * frameWidth == frameWidth * (y + n) && (y + ch) * frameWidth == frameWidth * (y + ch);
    }

    lemma NoRowsBlit(f: bytes, frameWidth: nat, x: nat, y: nat, pixels: bytes, w: nat, cw: nat)
      requires cw <= w && x + cw <= frameWidth && 0 * (w * 4) <= |pixels| && Size(frameWidth, y + 0) <= |f|
      ensures Blit(f, frameWidth, x, y, pixels, w, cw, 0) == f
    {}

    lemma OneRowBlit(f: bytes, frameWidth: nat, x: nat, y: nat, pixels: bytes, w: nat, cw: nat, n: nat)
      requires n > 0 && cw <= w && x + cw <= frameWidth && n * (w * 4) <= |pixels| && Size(frameWidth, y + n) <= |f|
      ensures (n - 1) * (w * 4) + cw * 4 <= |pixels|
      ensures (n - 1) * (w * 4) <= |pixels| && Size(frameWidth, y + n - 1) <= |f|
      ensures Offset(frameWidth, x, y + n - 1) + cw * 4 <= |f|
      ensures Blit(f, frameWidth, x, y, pixels, w, cw, n)
           == Splice(Blit(f, frameWidth, x, y, pixels, w, cw, n - 1), Offset(frameWidth, x, y + n - 1),
                     pixels[(n - 1) * (w * 4)..(n - 1) * (w * 4) + cw * 4])
    {
      hide Splice;
      RowsFit(frameWidth, x, y, n, w, cw);
    }

    /** PreviewSource::frame, when the lock is free or not. */
    method Sample(busy: bool) returns (r: Sample)
      ensures r == SampleOf(View(), busy)
    {
      if busy {
        return Nothing;
      }
      if disconnected || error.Some? {
        return Gone;
      }
      if !connected || !hasFrame {
        return Nothing;
      }
      return Seen(Frame(width, height, frameVersion, framebuffer[..]));
    }

    method Check() returns (r: Check)
      ensures r == CheckConnected(View())
    {
      if error.Some? {
        return Failed(error.value);
      }
      if disconnected {
        return Closed;
      }
      if !connected {
        return Connecting;
      }
      return Connected;
    }
  }

  /** The handler of a worker's reader: every event a stream delivers, in order. */
  method Replay(state: CallbackState, events: seq<Event>)
    requires Valid(state.View())
    modifies state, state.framebuffer
    ensures Valid(state.View())
    ensures state.View() == Run(old(state.View()), Natives(events))
  {
    hide Step;
    ghost var start := state.View();
    var i := 0;
    ghost var fb := state.framebuffer;
    while i < |events|
      invariant 0 <= i <= |events|
      invariant Valid(state.View()) && (state.framebuffer == fb || fresh(state.framebuffer))
      invariant Run(start, Natives(events)) == Run(state.View(), Natives(events[i..]))
    {
      ghost var s := state.View();
      ActKeepsValid(s, Native(events[i]));
      assert Natives(events[i..]) == [Native(events[i])] + Natives(events[i + 1..]);
      state.HandleNativeOutput(events[i].kind, events[i].a, events[i].b);
      i := i + 1;
    }
  }
}
