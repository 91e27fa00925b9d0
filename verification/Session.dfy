/** session.rs: what a session shows of its desktop, and what native messages do to it. */
module Session {
  import opened Bytes
  import opened Framing
  import opened WorkerStream
  import opened Pixels
  import opened SerdeJson

  const MAX_SIDE := 8192

  const INVALID_BITMAP: bytes := Chars("invalid native bitmap payload")
  const UNKNOWN_ERROR: bytes := Chars("unknown native FreeRDP error")

  datatype State = State(
    connected: bool,
    disconnected: bool,
    width: nat,
    height: nat,
    framebuffer: bytes,
    hasFrame: bool,
    version: nat,
    error: Option<bytes>
  )

  const INITIAL := State(false, false, 0, 0, [], false, 0, None)

  /** What every reachable state keeps: the buffer has the size of the desktop until the session stops. */
  predicate Valid(s: State) {
    && s.width <= MAX_SIDE && s.height <= MAX_SIDE
    && (s.width == 0 <==> s.height == 0)
    && (s.disconnected ==> s.framebuffer == [] && !s.connected && !s.hasFrame)
    && (!s.disconnected ==> |s.framebuffer| == Size(s.width, s.height))
    && (s.hasFrame ==> s.width > 0)
  }

  function Zeros(n: nat): (s: bytes)
    ensures |s| == n
    ensures forall i :: 0 <= i < n ==> s[i] == 0
  {
    seq(n, _ => 0)
  }

  // ----- painting

  /** `n` rows of an image `w` pixels wide, cut to `cw` pixels, copied to (x, y). */
  function Blit(f: bytes, width: nat, x: nat, y: nat, pixels: bytes, w: nat, cw: nat, n: nat): (r: bytes)
    requires cw <= w && x + cw <= width
    requires n * (w * 4) <= |pixels| && Size(width, y + n) <= |f|
    ensures |r| == |f|
  {
    if n == 0 then f
    else
      RowsFit(width, x, y, n, w, cw);
      Splice(Blit(f, width, x, y, pixels, w, cw, n - 1), Offset(width, x, y + n - 1), Row(pixels, w, cw, n - 1))
  }

  function Row(pixels: bytes, w: nat, cw: nat, row: nat): (s: bytes)
    requires row * (w * 4) + cw * 4 <= |pixels|
    ensures |s| == cw * 4
  {
    pixels[row * (w * 4)..row * (w * 4) + cw * 4]
  }

  lemma RowsFit(width: nat, x: nat, y: nat, n: nat, w: nat, cw: nat)
    requires n > 0 && cw <= w && x + cw <= width
    ensures (n - 1) * (w * 4) + cw * 4 <= n * (w * 4)
    ensures Offset(width, x, y + n - 1) + cw * 4 <= Size(width, y + n)
    ensures Size(width, y + n - 1) <= Size(width, y + n)
  {
    RowsBefore(n - 1, n, w * 4);
    RowsBefore(y + n - 1, y + n, width);
    assert width * (y + n) == (y + n) * width;
    assert width * (y + n - 1) == (y + n - 1) * width;
  }

  lemma RowOfPixels(pixels: bytes, w: nat, cw: nat, row: nat, i: nat)
    requires cw <= w && i < cw && (row + 1) * (w * 4) <= |pixels|
    ensures row * (w * 4) + cw * 4 <= |pixels| && Offset(w, i, row) + 4 <= |pixels|
    ensures Row(pixels, w, cw, row)[i * 4..i * 4 + 4] == PixelAt(pixels, w, i, row)
  {
    RowsBefore(row, row + 1, w * 4);
    assert row * w * 4 == row * (w * 4);
  }

  /** A blit changes the pixels under it to the ones given, and no others. */
  lemma {:induction false} BlitPixel(f: bytes, width: nat, x: nat, y: nat, pixels: bytes, w: nat, cw: nat, n: nat,
                                     px: nat, py: nat)
    requires cw <= w && x + cw <= width && px < width
    requires n * (w * 4) <= |pixels| && Size(width, y + n) <= |f|
    requires Offset(width, px, py) + 4 <= |f|
    ensures x <= px < x + cw && y <= py < y + n ==> Offset(w, px - x, py - y) + 4 <= |pixels|
    ensures PixelAt(Blit(f, width, x, y, pixels, w, cw, n), width, px, py)
         == if x <= px < x + cw && y <= py < y + n then PixelAt(pixels, w, px - x, py - y) else PixelAt(f, width, px, py)
    decreases n
  {
    hide Splice, PixelAt, Row, Offset, Size;
    if n > 0 {
      RowsFit(width, x, y, n, w, cw);
      BlitPixel(f, width, x, y, pixels, w, cw, n - 1, px, py);
      SplicePixel(Blit(f, width, x, y, pixels, w, cw, n - 1), width, x, y + n - 1, Row(pixels, w, cw, n - 1), cw, px, py);
      if x <= px < x + cw && py == y + n - 1 {
        RowOfPixels(pixels, w, cw, n - 1, px - x);
      }
    }
  }

  datatype Area = Area(x: nat, y: nat, w: nat, h: nat) {
    predicate Contains(px: nat, py: nat) {
      x <= px < x + w && y <= py < y + h
    }
  }

  /** The rectangle a bitmap's header names. */
  function HeaderArea(header: bytes): (r: Area)
    requires |header| == 8
    ensures r.x == header[0] as nat + 256 * header[1] as nat && r.y == header[2] as nat + 256 * header[3] as nat
    ensures r.w == header[4] as nat + 256 * header[5] as nat && r.h == header[6] as nat + 256 * header[7] as nat
  {
    Area(U16At(header, 0), U16At(header, 2), U16At(header, 4), U16At(header, 6))
  }

  /** `length` pixels at `from`, as far as they lie before `bound`. */
  function Visible(from: nat, length: nat, bound: nat): (n: nat)
    ensures n <= length && (n > 0 ==> from + n <= bound)
  {
    Min(length, if from < bound then bound - from else 0)
  }

  lemma VisibleArea(s: State, a: Area, px: nat, py: nat)
    requires px < s.width && py < s.height
    ensures Area(a.x, a.y, Visible(a.x, a.w, s.width), Visible(a.y, a.h, s.height)).Contains(px, py) <==> a.Contains(px, py)
  {}

  lemma VisibleRowsFit(s: State, a: Area, pixels: bytes)
    requires |pixels| == Size(a.w, a.h) && |s.framebuffer| == Size(s.width, s.height)
    requires Visible(a.y, a.h, s.height) > 0
    ensures Visible(a.y, a.h, s.height) * (a.w * 4) <= |pixels|
    ensures Size(s.width, a.y + Visible(a.y, a.h, s.height)) <= |s.framebuffer|
  {
    var n := Visible(a.y, a.h, s.height);
    Scaled(n, a.h, a.w * 4);
    Scaled(a.y + n, s.height, s.width);
    assert a.h * (a.w * 4) == Size(a.w, a.h);
    assert Size(s.width, a.y + n) == (a.y + n) * s.width * 4;
    assert Size(s.width, s.height) == s.height * s.width * 4;
  }

  lemma Scaled(a: nat, b: nat, k: nat)
    requires a <= b
    ensures a * k <= b * k
  {}

  /** apply_bitmap */
  function ApplyBitmap(s: State, header: bytes, pixels: bytes): (r: State)
    requires Valid(s) && !s.disconnected
  {
    if |header| != 8 || s.width == 0 || s.height == 0 then s
    else
      var a := HeaderArea(header);
      if |pixels| != Size(a.w, a.h) then s.(error := Some(INVALID_BITMAP))
      else
        var cw, ch := Visible(a.x, a.w, s.width), Visible(a.y, a.h, s.height);
        if cw == 0 || ch == 0 then s
        else
          VisibleRowsFit(s, a, pixels);
          s.(framebuffer := Blit(s.framebuffer, s.width, a.x, a.y, pixels, a.w, cw, ch),
             version := s.version + 1,
             hasFrame := true)
  }

  // ----- events

  function Stopped(s: State, error: Option<bytes>): (r: State) {
    s.(error := if !s.disconnected && s.error.None? then error else s.error,
       connected := false,
       disconnected := true,
       framebuffer := [],
       hasFrame := false)
  }

  function Resized(s: State, payload: bytes): (r: State) {
    match Dimensions(payload)
    case None => s
    case Some((w, h)) =>
      if 1 <= w <= MAX_SIDE && 1 <= h <= MAX_SIDE
      then s.(width := w, height := h, framebuffer := Zeros(Size(w, h)), hasFrame := false)
      else s
  }

  /** A field of the JSON object in a payload, when it is there and is a string. */
  function TextField(payload: bytes, key: bytes): (r: Option<bytes>) {
    match FromSlice(payload)
    case None => None
    case Some(t) => AsStr(Field(t, key))
  }

  /** handle_native_output */
  function Step(s: State, e: Event): (r: State)
    requires Valid(s)
  {
    if e.kind == MSG_DISCONNECTED then Stopped(s, TextField(e.a, ERROR))
    else if s.disconnected then s
    else if e.kind == MSG_READY then s.(connected := true)
    else if e.kind == MSG_CONNECTED || e.kind == MSG_RESIZED then Resized(s, e.a)
    else if e.kind == MSG_BITMAP_UPDATE then ApplyBitmap(s, e.a, e.b)
    else if e.kind == MSG_ERROR then
      s.(error := Some(match TextField(e.a, MESSAGE) case Some(m) => m case None => UNKNOWN_ERROR))
    else s
  }

  /** What may happen to a session: a message from its worker, or a stop from the parent's side. */
  datatype Action = Native(event: Event) | LocalStop(reason: Option<bytes>)

  function Natives(events: seq<Event>): (actions: seq<Action>)
    ensures |actions| == |events| && forall i :: 0 <= i < |events| ==> actions[i] == Native(events[i])
  {
    if events == [] then [] else [Native(events[0])] + Natives(events[1..])
  }

  function Act(s: State, action: Action): (r: State)
    requires Valid(s)
  {
    match action
    case Native(e) => Step(s, e)
    case LocalStop(reason) => Stopped(s, reason)
  }

  lemma ActKeepsValid(s: State, action: Action)
    requires Valid(s)
    ensures Valid(Act(s, action))
  {
    hide Blit, Dimensions, TextField, HeaderArea, Size;
    assert Size(0, 0) == 0 by { NoPixels(); }
  }

  lemma NoPixels()
    ensures Size(0, 0) == 0
  {}

  function Run(s: State, actions: seq<Action>): (r: State)
    requires Valid(s)
    ensures Valid(r)
    decreases |actions|
  {
    if actions == [] then s
    else
      ActKeepsValid(s, actions[0]);
      Run(Act(s, actions[0]), actions[1..])
  }

  // ----- status

  datatype Check = Connected | Failed(reason: bytes) | Closed | Connecting

  /** check_connected */
  function CheckConnected(s: State): (r: Check) {
    if s.error.Some? then Failed(s.error.value)
    else if s.disconnected then Closed
    else if !s.connected then Connecting
    else Connected
  }

  datatype Status = StatusConnecting | StatusConnected | StatusDisconnected

  /** The status info() reports. */
  function StatusOf(s: State): (r: Status) {
    if s.disconnected || s.error.Some? then StatusDisconnected
    else if s.connected then StatusConnected
    else StatusConnecting
  }

  function Rank(status: Status): (r: nat) {
    match status
    case StatusConnecting => 0
    case StatusConnected => 1
    case StatusDisconnected => 2
  }

  lemma RankGrows(s: State, action: Action)
    requires Valid(s)
    ensures Rank(StatusOf(s)) <= Rank(StatusOf(Act(s, action)))
    ensures s.version <= Act(s, action).version
  {
    hide Blit, Dimensions, TextField, HeaderArea, Size;
  }

  /**
   * Over every run the status only moves forward, and the buffer has the size of the
   * desktop until the session stops.
   */
  lemma {:induction false} StatusOnlyAdvances(s: State, actions: seq<Action>)
    requires Valid(s)
    ensures Rank(StatusOf(s)) <= Rank(StatusOf(Run(s, actions)))
    ensures s.version <= Run(s, actions).version
    ensures var r := Run(s, actions); !r.disconnected ==> |r.framebuffer| == Size(r.width, r.height)
    decreases |actions|
  {
    hide Act, Size;
    if actions != [] {
      ActKeepsValid(s, actions[0]);
      RankGrows(s, actions[0]);
      StatusOnlyAdvances(Act(s, actions[0]), actions[1..]);
    }
  }

  /** So check_connected never succeeds again once a session failed or stopped. */
  lemma NeverConnectedAgain(s: State, actions: seq<Action>)
    requires Valid(s) && (s.error.Some? || s.disconnected)
    ensures CheckConnected(Run(s, actions)) != Connected
    ensures CheckConnected(Run(s, actions)) != Connecting
  {
    hide Act;
    StatusOnlyAdvances(s, actions);
  }

  /** And a stopped session does not change at all. */
  lemma {:induction false} StoppedIsFrozen(s: State, actions: seq<Action>)
    requires Valid(s) && s.disconnected
    ensures Run(s, actions) == s
    decreases |actions|
  {
    hide TextField;
    if actions != [] {
      assert Act(s, actions[0]) == s;
      StoppedIsFrozen(s, actions[1..]);
    }
  }

  /** The parent's own stop, or the worker's message of kind 3. */
  predicate Stops(action: Action) {
    action.LocalStop? || action.event.kind == 3
  }

  /** The worker's message of kind 0. */
  predicate SaysReady(action: Action) {
    action.Native? && action.event.kind == 0
  }

  /** A session is closed exactly by a stop, and until then connected exactly since it was said to be ready. */
  lemma {:induction false} ConnectedSinceReady(s: State, actions: seq<Action>)
    requires Valid(s)
    ensures var r := Run(s, actions);
            && (r.disconnected <==> s.disconnected || exists a :: a in actions && Stops(a))
            && (!r.disconnected ==> (r.connected <==> s.connected || exists a :: a in actions && SaysReady(a)))
            && (CheckConnected(r) == Connected <==> !r.disconnected && r.connected && r.error.None?)
            && (StatusOf(r) == StatusConnected <==> !r.disconnected && r.connected && r.error.None?)
            && (StatusOf(r) == StatusConnecting <==> !r.disconnected && !r.connected && r.error.None?)
    decreases |actions|
  {
    hide Act;
    if actions != [] {
      var next := Act(s, actions[0]);
      ActKeepsValid(s, actions[0]);
      ActConnects(s, actions[0]);
      ConnectedSinceReady(next, actions[1..]);
      assert forall a :: a in actions <==> a == actions[0] || a in actions[1..];
    }
  }

  lemma ActConnects(s: State, action: Action)
    requires Valid(s)
    ensures var r := Act(s, action);
            && (r.disconnected <==> s.disconnected || Stops(action))
            && (!r.disconnected ==> (r.connected <==> s.connected || SaysReady(action)))
  {
    hide Blit, Dimensions, TextField, HeaderArea, Size;
  }

  /**
   * What brings an error up in a session that has none: a message of kind 255, with the text it
   * carries; a bitmap whose pixels are not as many as its header says, once there is a desktop;
   * and a stop for which there is a reason, told by the worker (kind 3) or the parent.
   */
  lemma ErrorArises(s: State, action: Action)
    requires Valid(s) && !s.disconnected && s.error.None?
    ensures match action
            case LocalStop(reason) => Act(s, action).error == reason
            case Native(e) =>
              var r := Act(s, action).error;
              && (e.kind == 3 ==> r == TextField(e.a, ERROR))
              && (e.kind == 255 ==>
                    r == if TextField(e.a, MESSAGE).Some? then TextField(e.a, MESSAGE)
                         else Some(Chars("unknown native FreeRDP error")))
              && (e.kind == 2 ==>
                    r == if |e.a| == 8 && s.width > 0
                            && |e.b| != (e.a[4] as nat + 256 * e.a[5] as nat) * (e.a[6] as nat + 256 * e.a[7] as nat) * 4
                         then Some(Chars("invalid native bitmap payload")) else None)
              && (e.kind != 2 && e.kind != 3 && e.kind != 255 ==> r.None?)
  {
    hide Blit, Dimensions, TextField, HeaderArea, Chars;
  }

  /** The first error is the one a stop leaves in place. */
  lemma StopKeepsTheError(s: State, reason: Option<bytes>, actions: seq<Action>)
    requires Valid(s) && s.error.Some?
    ensures Valid(Stopped(s, reason)) && CheckConnected(Run(Stopped(s, reason), actions)) == Failed(s.error.value)
  {
    ActKeepsValid(s, LocalStop(reason));
    StoppedIsFrozen(Stopped(s, reason), actions);
  }

  // ----- what viewers see

  /** Width, height, version and pixels. */
  datatype Frame = Frame(width: nat, height: nat, version: nat, pixels: bytes)

  datatype Sample = Gone | Nothing | Seen(frame: Frame)

  /** PreviewSource::frame; `busy`: someone else holds the lock. */
  function SampleOf(s: State, busy: bool): (r: Sample) {
    if busy then Nothing
    else if s.disconnected || s.error.Some? then Gone
    else if !s.connected || !s.hasFrame then Nothing
    else Seen(Frame(s.width, s.height, s.version, s.framebuffer))
  }

  /** A version names one picture: what has a frame and kept its version kept its pixels. */
  predicate SamePicture(s: State, r: State) {
    && s.version <= r.version
    && (r.hasFrame && r.version == s.version ==>
          s.hasFrame && r.framebuffer == s.framebuffer && r.width == s.width && r.height == s.height)
  }

  lemma ActKeepsPicture(s: State, action: Action)
    requires Valid(s)
    ensures SamePicture(s, Act(s, action))
  {
    hide Blit, Dimensions, TextField, HeaderArea, Size;
  }

  lemma {:induction false} RunKeepsPicture(s: State, actions: seq<Action>)
    requires Valid(s)
    ensures SamePicture(s, Run(s, actions))
    decreases |actions|
  {
    hide Act;
    if actions != [] {
      ActKeepsValid(s, actions[0]);
      ActKeepsPicture(s, actions[0]);
      RunKeepsPicture(Act(s, actions[0]), actions[1..]);
    }
  }

  /** Two frames of one session with the same version are the same frame, whatever happened between them. */
  lemma VersionNamesFrame(s: State, actions: seq<Action>, f: Frame, g: Frame)
    requires Valid(s) && SampleOf(s, false) == Seen(f) && SampleOf(Run(s, actions), false) == Seen(g)
    requires f.version == g.version
    ensures f == g
  {
    RunKeepsPicture(s, actions);
  }
}
