/**
 * From the desktop to the viewer: what the session shows of everything the native side
 * painted, through clipping, conversion, headers, framing, cuts of the stream, splitting
 * and copying.
 */
module Pipeline {
  import opened Bytes
  import opened Framing
  import opened WorkerStream
  import opened NativeOutput
  import opened Pixels
  import opened Paint
  import opened Connection
  import opened SerdeJson
  import opened Session

  /** What the native side does with its output. */
  datatype NativeStep =
    | BecomeReady
    | Announce(resized: bool, width: int, height: int)
    | EndPaint(desktop: Image, invalid: Option<Rect>)
    | Other(kind: u32, payload: bytes)

  /** The message of a step; a paint with nothing to show sends none. */
  ghost function MessageOf(step: NativeStep): (r: Option<Message>)
    requires step.EndPaint? ==> step.desktop.Valid()
    ensures step.BecomeReady? ==> r.Some? && r.value.kind == 0
    ensures step.Announce? ==> r.Some? && r.value.kind == if step.resized then 4 else 1
    ensures step.EndPaint? && r.Some? ==> r.value.kind == 2
  {
    match step
    case BecomeReady => Some(Message(MSG_READY, []))
    case Announce(resized, w, h) => Some(Message(if resized then MSG_RESIZED else MSG_CONNECTED, DimensionsText(w, h)))
    case EndPaint(desktop, invalid) =>
      if invalid.None? then None
      else
        match Clip(invalid.value, desktop.width, desktop.height) {
          case None => None
          case Some(c) => Some(Message(MSG_BITMAP_UPDATE, BitmapPayload(desktop, c)))
        }
    case Other(kind, payload) => Some(Message(kind, payload))
  }

  ghost function BitmapPayload(desktop: Image, c: Rect): (s: bytes)
    requires Fits(desktop, c)
    ensures |s| == 8 + c.h * (c.w * 4)
  {
    BitmapHeader(c.x % 0x1_0000, c.y % 0x1_0000, c.w % 0x1_0000, c.h % 0x1_0000) + RectPixels(desktop, c, c.h)
  }

  /**
   * A desktop no side of which exceeds 16 bits, messages no longer than the stream takes,
   * sizes in C's int, and kinds of messages that are not the session's.
   */
  ghost predicate Possible(step: NativeStep) {
    match step
    case BecomeReady => true
    case Announce(_, w, h) => IsInt32(w) && IsInt32(h)
    case EndPaint(desktop, _) =>
      && desktop.Valid() && desktop.width < 0x1_0000 && desktop.height < 0x1_0000
      && (MessageOf(step).Some? ==> |MessageOf(step).value.payload| <= MAX_PAYLOAD)
    case Other(kind, payload) =>
      && kind != MSG_READY && kind != MSG_CONNECTED && kind != MSG_BITMAP_UPDATE && kind != MSG_DISCONNECTED
      && kind != MSG_RESIZED && kind != MSG_ERROR && |payload| <= MAX_PAYLOAD
  }

  ghost predicate AllPossible(steps: seq<NativeStep>) {
    forall i :: 0 <= i < |steps| ==> Possible(steps[i])
  }

  ghost function MessagesOf(step: NativeStep): (r: seq<Message>)
    requires Possible(step)
  {
    match MessageOf(step)
    case None => []
    case Some(m) => [m]
  }

  /** Everything the steps put on the stream. */
  ghost function Messages(steps: seq<NativeStep>): (r: seq<Message>)
    requires AllPossible(steps)
  {
    if steps == [] then [] else Messages(steps[..|steps| - 1]) + MessagesOf(steps[|steps| - 1])
  }

  // ----- what is to be seen, said without the stream

  /** An announcement whose sides are within 1..8192. */
  predicate Effective(step: NativeStep) {
    step.Announce? && 1 <= step.width <= 8192 && 1 <= step.height <= 8192
  }

  /** The desktop's size as last announced. */
  function Dims(steps: seq<NativeStep>): (r: (nat, nat)) {
    if steps == [] then (0, 0)
    else
      var last := steps[|steps| - 1];
      if Effective(last) then (last.width, last.height) else Dims(steps[..|steps| - 1])
  }

  /** (px, py) lies in the rectangle that is painted and on the desktop. */
  predicate Covers(step: NativeStep, px: nat, py: nat) {
    && step.EndPaint? && step.invalid.Some?
    && (var r := step.invalid.value; r.x <= px < r.x + r.w && r.y <= py < r.y + r.h)
    && px < step.desktop.width && py < step.desktop.height
  }

  /** The desktop that was last painted at (px, py) since the size was last announced. */
  function LastPaint(steps: seq<NativeStep>, px: nat, py: nat): (r: Option<Image>) {
    if steps == [] then None
    else
      var last := steps[|steps| - 1];
      if Effective(last) then None
      else if Covers(last, px, py) then Some(last.desktop)
      else LastPaint(steps[..|steps| - 1], px, py)
  }

  /** The worker said that it is ready. */
  predicate SaidReady(steps: seq<NativeStep>) {
    BecomeReady in steps
  }

  /** Something on the announced desktop was painted since its size was last announced. */
  ghost predicate HasPicture(steps: seq<NativeStep>) {
    exists px, py :: InDims(Dims(steps), px, py) && LastPaint(steps, px, py).Some?
  }

  predicate InDims(dims: (nat, nat), px: int, py: int) {
    0 <= px < dims.0 && 0 <= py < dims.1
  }

  /**
   * Four bytes of a picture at `d` show the pixel (px, py) of a desktop: its bytes are blue, green,
   * red and one that is not used, theirs red, green, blue and opaque; without a desktop, nothing.
   */
  ghost predicate Displays(f: bytes, d: nat, desktop: Option<Image>, px: nat, py: nat) {
    && d + 4 <= |f|
    && match desktop {
         case None => f[d] == 0 && f[d + 1] == 0 && f[d + 2] == 0 && f[d + 3] == 0
         case Some(image) =>
           var o := py * image.stride + px * 4;
           && o + 4 <= |image.bytes|
           && f[d] == image.bytes[o + 2] && f[d + 1] == image.bytes[o + 1] && f[d + 2] == image.bytes[o]
           && f[d + 3] == 255
       }
  }

  /** The session's picture is what was painted. */
  ghost predicate Mirrors(s: State, steps: seq<NativeStep>) {
    && Valid(s) && !s.disconnected && s.error == None
    && (s.connected <==> SaidReady(steps)) && (s.hasFrame <==> HasPicture(steps))
    && (s.width, s.height) == Dims(steps)
    && forall px, py :: 0 <= px < s.width && 0 <= py < s.height ==>
         Displays(s.framebuffer, (py * s.width + px) * 4, LastPaint(steps, px, py), px, py)
  }

  // ----- one step

  ghost function ActionOf(m: Message): (r: Action)
    requires Split(m).Some?
  {
    Native(Split(m).value)
  }

  lemma MessageIsDeliverable(step: NativeStep)
    requires Possible(step)
    ensures MessageOf(step).Some? ==> |MessageOf(step).value.payload| <= MAX_PAYLOAD && Split(MessageOf(step).value).Some?
  {
    hide RectPixels, Clip, BitmapHeader;
    if step.Announce? { DimensionsTextIsShort(step.width, step.height); }
  }

  lemma OneMore(steps: seq<NativeStep>, step: NativeStep, px: nat, py: nat)
    ensures Dims(steps + [step]) == if Effective(step) then (step.width, step.height) else Dims(steps)
    ensures LastPaint(steps + [step], px, py)
         == if Effective(step) then None
            else if Covers(step, px, py) then Some(step.desktop) else LastPaint(steps, px, py)
    ensures SaidReady(steps + [step]) <==> SaidReady(steps) || step == BecomeReady
  {
    assert (steps + [step])[..|steps|] == steps;
  }

  /** A step that shows nothing new on the desktop leaves everything as it was. */
  lemma NothingNew(steps: seq<NativeStep>, step: NativeStep)
    requires !Effective(step)
    requires forall px, py :: InDims(Dims(steps), px, py) ==> !Covers(step, px, py)
    ensures Dims(steps + [step]) == Dims(steps) && (HasPicture(steps + [step]) <==> HasPicture(steps))
    ensures forall px, py :: InDims(Dims(steps), px, py) ==>
              LastPaint(steps + [step], px, py) == LastPaint(steps, px, py)
  {
    hide Dims, LastPaint, Covers, Effective;
    OneMore(steps, step, 0, 0);
    forall px, py | InDims(Dims(steps), px, py)
      ensures LastPaint(steps + [step], px, py) == LastPaint(steps, px, py)
    {
      OneMore(steps, step, px, py);
    }
  }

  /** So the session still mirrors the steps when only `connected` followed. */
  lemma StillMirrors(s: State, r: State, steps: seq<NativeStep>, step: NativeStep)
    requires Mirrors(s, steps) && !Effective(step)
    requires forall px, py :: InDims(Dims(steps), px, py) ==> !Covers(step, px, py)
    requires r == s.(connected := s.connected || step == BecomeReady)
    ensures Mirrors(r, steps + [step])
  {
    hide Dims, LastPaint, Covers, Effective, Displays, HasPicture, Size;
    OneMore(steps, step, 0, 0);
    NothingNew(steps, step);
    assert forall px, py :: 0 <= px < s.width && 0 <= py < s.height ==> InDims(Dims(steps), px, py);
  }

  lemma AnnounceStep(s: State, steps: seq<NativeStep>, step: NativeStep)
    requires Mirrors(s, steps) && Possible(step) && step.Announce?
    ensures MessageOf(step).Some? && Split(MessageOf(step).value).Some?
    ensures Mirrors(Act(s, ActionOf(MessageOf(step).value)), steps + [step])
  {
    hide Dimensions, DimensionsText, Size, Displays, HasPicture, LastPaint, Dims;
    var r := Act(s, ActionOf(MessageOf(step).value));
    assert r == Resized(s, DimensionsText(step.width, step.height));
    ActKeepsValid(s, ActionOf(MessageOf(step).value));
    if Effective(step) {
      DimensionsArrive(step.width, step.height);
      BlankDesktop(steps, step);
      OneMore(steps, step, 0, 0);
      forall px, py | 0 <= px < r.width && 0 <= py < r.height
        ensures Displays(r.framebuffer, (py * r.width + px) * 4, LastPaint(steps + [step], px, py), px, py)
      {
        OneMore(steps, step, px, py);
        ZerosDisplay(r.width, r.height, px, py);
      }
    } else {
      UselessDimensions(step.width, step.height);
      StillMirrors(s, r, steps, step);
    }
  }

  lemma BlankDesktop(steps: seq<NativeStep>, step: NativeStep)
    requires Effective(step)
    ensures !HasPicture(steps + [step])
  {
    hide Dims, LastPaint, Effective;
    forall px, py | InDims(Dims(steps + [step]), px, py) ensures LastPaint(steps + [step], px, py).None? {
      OneMore(steps, step, px, py);
    }
  }

  lemma ZerosDisplay(w: nat, h: nat, px: nat, py: nat)
    requires px < w && py < h
    ensures Displays(Zeros(Size(w, h)), (py * w + px) * 4, None, px, py)
  {
    OffsetInside(w, h, px, py);
  }

  /** Sizes out of range, negative ones among them, do not get through. */
  lemma UselessDimensions(w: int, h: int)
    requires IsInt32(w) && IsInt32(h) && !(1 <= w <= MAX_SIDE && 1 <= h <= MAX_SIDE)
    ensures var d := Dimensions(DimensionsText(w, h));
            d.None? || !(1 <= d.value.0 <= MAX_SIDE && 1 <= d.value.1 <= MAX_SIDE)
  {
    hide Dimensions, DimensionsText;
    DimensionsArrive(w, h);
  }

  lemma QuietStep(s: State, steps: seq<NativeStep>, step: NativeStep)
    requires Mirrors(s, steps) && Possible(step)
    requires step.BecomeReady? || step.Other?
    ensures MessageOf(step).Some? && Split(MessageOf(step).value).Some?
    ensures Mirrors(Act(s, ActionOf(MessageOf(step).value)), steps + [step])
  {
    hide Mirrors, Size, Dimensions, DimensionsText, FromSlice, ApplyBitmap, Resized;
    NotStopped(s, steps);
    StillMirrors(s, Act(s, ActionOf(MessageOf(step).value)), steps, step);
  }

  lemma NotStopped(s: State, steps: seq<NativeStep>)
    requires Mirrors(s, steps)
    ensures Valid(s) && !s.disconnected && s.error == None
  {}

  lemma PaintNothing(s: State, steps: seq<NativeStep>, step: NativeStep)
    requires Mirrors(s, steps) && Possible(step) && MessageOf(step).None?
    ensures Mirrors(s, steps + [step])
  {
    hide Mirrors, RectPixels, BitmapPayload, Clip;
    forall px: nat, py: nat ensures !Covers(step, px, py) {
      if step.invalid.Some? {
        ClipIsIntersection(step.invalid.value, step.desktop.width, step.desktop.height, px, py);
      }
    }
    StillMirrors(s, s, steps, step);
  }

  /** The header and the pixels of a bitmap, as they come out of the message. */
  lemma PaintEvent(desktop: Image, c: Rect)
    requires Fits(desktop, c) && desktop.width < 0x1_0000 && desktop.height < 0x1_0000
    ensures var e := Split(Message(MSG_BITMAP_UPDATE, BitmapPayload(desktop, c)));
            && e.Some? && e.value.kind == MSG_BITMAP_UPDATE && |e.value.a| == 8
            && HeaderArea(e.value.a) == Area(c.x, c.y, c.w, c.h)
            && e.value.b == RectPixels(desktop, c, c.h) && |e.value.b| == Size(c.w, c.h)
  {
    hide RectPixels, BitmapHeader, HeaderArea;
    BitmapHeaderFields(c.x, c.y, c.w, c.h);
    var h := BitmapHeader(c.x, c.y, c.w, c.h);
    assert (h + RectPixels(desktop, c, c.h))[..8] == h;
    assert (h + RectPixels(desktop, c, c.h))[8..] == RectPixels(desktop, c, c.h);
    assert c.h * (c.w * 4) == c.w * c.h * 4;
  }

  /** One pixel of the session after a bitmap. */
  lemma PaintedPixel(s: State, header: bytes, pixels: bytes, a: Area, px: nat, py: nat)
    requires Valid(s) && !s.disconnected && |header| == 8 && HeaderArea(header) == a && |pixels| == Size(a.w, a.h)
    requires px < s.width && py < s.height && Offset(s.width, px, py) + 4 <= |s.framebuffer|
    ensures var r := ApplyBitmap(s, header, pixels);
            && r.width == s.width && r.height == s.height && |r.framebuffer| == |s.framebuffer|
            && r.disconnected == s.disconnected && r.error == s.error
            && (a.Contains(px, py) ==> Offset(a.w, px - a.x, py - a.y) + 4 <= |pixels|)
            && PixelAt(r.framebuffer, r.width, px, py)
               == if a.Contains(px, py) then PixelAt(pixels, a.w, px - a.x, py - a.y)
                  else PixelAt(s.framebuffer, s.width, px, py)
  {
    hide Blit, Offset, PixelAt, Size, HeaderArea;
    var cw, ch := Visible(a.x, a.w, s.width), Visible(a.y, a.h, s.height);
    VisibleArea(s, a, px, py);
    if cw > 0 && ch > 0 {
      VisibleRowsFit(s, a, pixels);
      BlitPixel(s.framebuffer, s.width, a.x, a.y, pixels, a.w, cw, ch, px, py);
    }
  }

  /** A pixel of the session shows what the pixels of the bitmap show that were put there. */
  lemma SameChannels(f: bytes, d: nat, g: bytes, e: nat, desktop: Option<Image>, px: nat, py: nat)
    requires d + 4 <= |f| && e + 4 <= |g| && f[d..d + 4] == g[e..e + 4]
    requires Displays(g, e, desktop, px, py)
    ensures Displays(f, d, desktop, px, py)
  {
    FourInSlice(f, d);
    FourInSlice(g, e);
  }

  lemma RectDisplays(desktop: Image, c: Rect, i: nat, j: nat)
    requires Fits(desktop, c) && i < c.w && j < c.h
    ensures Displays(RectPixels(desktop, c, c.h), Offset(c.w, i, j), Some(desktop), c.x + i, c.y + j)
  {
    hide RectPixels, Offset;
    OffsetIs(c.w, i, j);
    RectPixelAt(desktop, c, c.h, i, j);
  }

  lemma PaintStep(s: State, steps: seq<NativeStep>, step: NativeStep)
    requires Mirrors(s, steps) && Possible(step)
    requires step.EndPaint? && MessageOf(step).Some?
    ensures Split(MessageOf(step).value).Some?
    ensures Mirrors(Act(s, ActionOf(MessageOf(step).value)), steps + [step])
  {
    hide Blit, Offset, PixelAt, Size, HeaderArea, RectPixels, BitmapPayload, Clip, ApplyBitmap, Displays, HasPicture,
      LastPaint, Dims, Covers, SaidReady;
    var desktop, c := step.desktop, Clip(step.invalid.value, step.desktop.width, step.desktop.height).value;
    PaintEvent(desktop, c);
    var e := Split(MessageOf(step).value).value;
    var r := Act(s, ActionOf(MessageOf(step).value));
    assert r == ApplyBitmap(s, e.a, e.b);
    ActKeepsValid(s, ActionOf(MessageOf(step).value));
    SameSize(s, e.a, e.b);
    OneMore(steps, step, 0, 0);
    NewPicture(s, steps, step, c, e.a, e.b);
    forall px, py | 0 <= px < r.width && 0 <= py < r.height
      ensures Displays(r.framebuffer, (py * r.width + px) * 4, LastPaint(steps + [step], px, py), px, py)
    {
      OffsetIs(s.width, px, py);
      PaintedDisplays(s, steps, step, c, e.a, e.b, px, py);
    }
  }

  /** One pixel after a paint. */
  lemma PaintedDisplays(s: State, steps: seq<NativeStep>, step: NativeStep, c: Rect, header: bytes, pixels: bytes,
      px: nat, py: nat)
    requires Mirrors(s, steps) && Possible(step) && step.EndPaint? && step.invalid.Some?
    requires Clip(step.invalid.value, step.desktop.width, step.desktop.height) == Some(c) && Fits(step.desktop, c)
    requires |header| == 8 && HeaderArea(header) == Area(c.x, c.y, c.w, c.h)
    requires pixels == RectPixels(step.desktop, c, c.h) && |pixels| == Size(c.w, c.h)
    requires px < s.width && py < s.height
    ensures var r := ApplyBitmap(s, header, pixels);
            Displays(r.framebuffer, Offset(s.width, px, py), LastPaint(steps + [step], px, py), px, py)
  {
    hide Blit, Offset, Size, HeaderArea, RectPixels, Clip, ApplyBitmap, Displays, HasPicture, LastPaint, Dims;
    OneMore(steps, step, px, py);
    OffsetInside(s.width, s.height, px, py);
    PaintedPixel(s, header, pixels, Area(c.x, c.y, c.w, c.h), px, py);
    ClipIsIntersection(step.invalid.value, step.desktop.width, step.desktop.height, px, py);
    var f, d := ApplyBitmap(s, header, pixels).framebuffer, Offset(s.width, px, py);
    OffsetIs(s.width, px, py);
    if c.Contains(px, py) {
      RectDisplays(step.desktop, c, px - c.x, py - c.y);
      SameChannels(f, d, pixels, Offset(c.w, px - c.x, py - c.y), Some(step.desktop), px, py);
    } else {
      SameChannels(f, d, s.framebuffer, d, LastPaint(steps, px, py), px, py);
    }
  }

  /** There is a picture from the first bitmap on of which something lies on the session's desktop. */
  lemma NewPicture(s: State, steps: seq<NativeStep>, step: NativeStep, c: Rect, header: bytes, pixels: bytes)
    requires Mirrors(s, steps) && Possible(step) && step.EndPaint? && step.invalid.Some?
    requires Clip(step.invalid.value, step.desktop.width, step.desktop.height) == Some(c)
    requires |header| == 8 && HeaderArea(header) == Area(c.x, c.y, c.w, c.h) && |pixels| == Size(c.w, c.h)
    ensures var r := ApplyBitmap(s, header, pixels);
            (r.hasFrame <==> HasPicture(steps + [step])) && r.connected == s.connected
  {
    hide Blit, Size, HeaderArea, Clip, LastPaint, Dims, Covers, Displays;
    OneMore(steps, step, 0, 0);
    var dims := Dims(steps);
    if c.x < s.width && c.y < s.height {
      ClipIsIntersection(step.invalid.value, step.desktop.width, step.desktop.height, c.x, c.y);
      assert Covers(step, c.x, c.y) by { CoversIs(step, c.x, c.y); }
      OneMore(steps, step, c.x, c.y);
      assert InDims(dims, c.x, c.y) && LastPaint(steps + [step], c.x, c.y).Some?;
    } else {
      forall px: nat, py: nat | InDims(dims, px, py) ensures !Covers(step, px, py) {
        CoversIs(step, px, py);
        ClipIsIntersection(step.invalid.value, step.desktop.width, step.desktop.height, px, py);
      }
      NothingNew(steps, step);
    }
  }

  lemma CoversIs(step: NativeStep, px: nat, py: nat)
    requires step.EndPaint? && step.invalid.Some?
    ensures Covers(step, px, py)
       <==> step.invalid.value.Contains(px, py) && px < step.desktop.width && py < step.desktop.height
  {}

  lemma SameSize(s: State, header: bytes, pixels: bytes)
    requires Valid(s) && !s.disconnected && s.error == None
    requires |header| == 8 && |pixels| == Size(HeaderArea(header).w, HeaderArea(header).h)
    ensures var r := ApplyBitmap(s, header, pixels);
            r.width == s.width && r.height == s.height && !r.disconnected && r.error == None
  {
    hide Blit, HeaderArea, Size;
  }

  // ----- whole runs

  lemma {:induction false} RunAppend(s: State, actions: seq<Action>, more: seq<Action>)
    requires Valid(s)
    ensures Run(s, actions + more) == Run(Run(s, actions), more)
    decreases |actions|
  {
    hide Act;
    if actions == [] {
      assert actions + more == more;
    } else {
      ActKeepsValid(s, actions[0]);
      assert (actions + more)[1..] == actions[1..] + more;
      RunAppend(Act(s, actions[0]), actions[1..], more);
    }
  }

  ghost function ActionsOf(messages: seq<Message>): (r: seq<Action>)
    requires Deliverable(messages)
  {
    Natives(EventsOf(messages))
  }

  lemma {:induction false} ActionsAppend(messages: seq<Message>, m: Message)
    requires Deliverable(messages) && Deliverable([m])
    ensures Deliverable(messages + [m])
    ensures Split([m][0]).Some? && ActionsOf(messages + [m]) == ActionsOf(messages) + [ActionOf(m)]
  {
    if messages == [] {
      assert messages + [m] == [m] && [m][1..] == [];
    } else {
      assert (messages + [m])[1..] == messages[1..] + [m];
      ActionsAppend(messages[1..], m);
      var rest := ActionsOf(messages[1..]);
      assert [ActionOf(messages[0])] + (rest + [ActionOf(m)]) == [ActionOf(messages[0])] + rest + [ActionOf(m)];
    }
  }

  lemma {:induction false} MessagesAreDeliverable(steps: seq<NativeStep>)
    requires AllPossible(steps)
    ensures Deliverable(Messages(steps))
  {
    hide Split, MessageOf;
    if steps != [] {
      MessagesAreDeliverable(steps[..|steps| - 1]);
      MessageIsDeliverable(steps[|steps| - 1]);
    }
  }

  /** After all steps arrived the session shows what was painted. */
  lemma {:induction false} SessionMirrorsDesktop(steps: seq<NativeStep>)
    requires AllPossible(steps)
    ensures Deliverable(Messages(steps))
    ensures Mirrors(Run(INITIAL, ActionsOf(Messages(steps))), steps)
  {
    hide Mirrors, Act, MessageOf, ActionsOf, Possible, Split;
    MessagesAreDeliverable(steps);
    if steps == [] {
      StartMirrors();
    } else {
      var before, last := steps[..|steps| - 1], steps[|steps| - 1];
      assert before + [last] == steps;
      SessionMirrorsDesktop(before);
      OneMoreStep(before, last);
    }
  }

  /**
   * What the clients get of it: connected since READY came, and a frame of the announced size,
   * with the last paint under every pixel, once something was painted on that desktop.
   */
  lemma WhatViewersSee(steps: seq<NativeStep>)
    requires AllPossible(steps)
    ensures Deliverable(Messages(steps))
    ensures var s := Run(INITIAL, ActionsOf(Messages(steps)));
            && CheckConnected(s) == (if BecomeReady in steps then Connected else Connecting)
            && StatusOf(s) == (if BecomeReady in steps then StatusConnected else StatusConnecting)
            && match SampleOf(s, false) {
                 case Gone => false
                 case Nothing => !(BecomeReady in steps && HasPicture(steps))
                 case Seen(frame) =>
                   && BecomeReady in steps && HasPicture(steps) && (frame.width, frame.height) == Dims(steps)
                   && forall px, py :: 0 <= px < frame.width && 0 <= py < frame.height ==>
                        Displays(frame.pixels, (py * frame.width + px) * 4, LastPaint(steps, px, py), px, py)
               }
  {
    hide Displays, LastPaint, Dims, HasPicture, ActionsOf, Messages;
    SessionMirrorsDesktop(steps);
  }

  lemma StartMirrors()
    ensures Mirrors(Run(INITIAL, ActionsOf([])), [])
  {
    Session.NoPixels();
  }

  lemma OneMoreStep(before: seq<NativeStep>, last: NativeStep)
    requires AllPossible(before) && AllPossible(before + [last]) && Possible(last)
    requires Deliverable(Messages(before)) && Mirrors(Run(INITIAL, ActionsOf(Messages(before))), before)
    ensures Deliverable(Messages(before + [last]))
    ensures Mirrors(Run(INITIAL, ActionsOf(Messages(before + [last]))), before + [last])
  {
    hide Mirrors, Act, MessageOf, ActionsOf, Split;
    var s := Run(INITIAL, ActionsOf(Messages(before)));
    assert (before + [last])[..|before|] == before;
    MessagesAreDeliverable(before + [last]);
    if MessageOf(last).None? {
      assert Messages(before) + [] == Messages(before);
      PaintNothing(s, before, last);
    } else {
      var m := MessageOf(last).value;
      assert Messages(before + [last])[|Messages(before)|] == m;
      assert Deliverable([m]);
      ActionsAppend(Messages(before), m);
      RunAppend(INITIAL, ActionsOf(Messages(before)), [ActionOf(m)]);
      assert Run(s, [ActionOf(m)]) == Act(s, ActionOf(m)) by { RunOne(s, ActionOf(m)); }
      match last
      case Announce(_, _, _) => AnnounceStep(s, before, last);
      case EndPaint(_, _) => PaintStep(s, before, last);
      case _ => QuietStep(s, before, last);
    }
  }

  lemma RunOne(s: State, a: Action)
    requires Valid(s)
    ensures Run(s, [a]) == Act(s, a)
  {
    hide Act;
    ActKeepsValid(s, a);
    assert [a][1..] == [];
    assert Run(Act(s, a), []) == Act(s, a);
  }

  /** The steps whose messages lie wholly before a cut. */
  lemma {:induction false} StepsBeforeCut(steps: seq<NativeStep>, k: nat) returns (j: nat)
    requires AllPossible(steps) && k <= |Messages(steps)|
    ensures j <= |steps| && Messages(steps[..j]) == Messages(steps)[..k]
  {
    if steps == [] || k == |Messages(steps)| {
      assert steps[..|steps|] == steps;
      return |steps|;
    }
    j := StepsBeforeCut(steps[..|steps| - 1], k);
    assert steps[..|steps| - 1][..j] == steps[..j];
  }

  /**
   * The whole way. Whatever the native side painted and announced, and wherever its stream
   * breaks off: the session shows the desktop of some prefix of the steps, pixel for pixel,
   * and of all of them when the stream arrived in full.
   */
  lemma DesktopArrives(steps: seq<NativeStep>, n: nat, broken: bool) returns (j: nat)
    requires AllPossible(steps) && n <= |EncodeAll(Messages(steps))|
    ensures j <= |steps|
    ensures Mirrors(Run(INITIAL, Natives(Deliver(EncodeAll(Messages(steps))[..n], broken).0)), steps[..j])
    ensures Messages(steps[..j]) == Messages(steps)[..WholeMessages(Messages(steps), n)]
    ensures n == |EncodeAll(Messages(steps))| ==> Messages(steps[..j]) == Messages(steps)
  {
    hide Mirrors, Act, MessageOf, Possible, Split, Encode;
    var messages := Messages(steps);
    MessagesAreDeliverable(steps);
    var k := WholeMessages(messages, n);
    DeliverOfCutStream(messages, n, broken);
    EventsOfPrefix(messages, k);
    j := StepsBeforeCut(steps, k);
    SessionMirrorsDesktop(steps[..j]);
    WholeIsAll(messages);
    assert messages[..|messages|] == messages;
  }

  /** What cb_end_paint writes is the message of its step. */
  lemma PaintedIsMessage(desktop: Image, invalid: Option<Rect>, output: Output)
    requires Possible(EndPaint(desktop, invalid))
    ensures Painted(desktop, invalid, output) == EncodeAll(MessagesOf(EndPaint(desktop, invalid)))
  {
    hide RectPixels, BitmapHeader, Header, Clip;
    var m := MessageOf(EndPaint(desktop, invalid));
    if m.Some? {
      var c := Clip(invalid.value, desktop.width, desktop.height).value;
      var h := BitmapHeader(c.x % 0x1_0000, c.y % 0x1_0000, c.w % 0x1_0000, c.h % 0x1_0000);
      EncodeJoined(MSG_BITMAP_UPDATE, h, RectPixels(desktop, c, c.h));
      OneEncoded(m.value);
    }
  }

  /** What cb_desktop_resize writes is the message of its step. */
  lemma AnnouncedIsMessage(w: int, h: int)
    requires IsInt32(w) && IsInt32(h)
    ensures Encode(MSG_RESIZED, DimensionsText(w, h), []) == EncodeAll(MessagesOf(Announce(true, w, h)))
  {
    hide DimensionsText, Encode;
    OneEncoded(Message(MSG_RESIZED, DimensionsText(w, h)));
  }

  lemma EncodeJoined(kind: u32, a: bytes, b: bytes)
    ensures Encode(kind, a, b) == Encode(kind, a + b, [])
  {
    assert a + b + [] == a + b;
  }

  lemma OneEncoded(m: Message)
    ensures EncodeAll([m]) == Encode(m.kind, m.payload, [])
  {
    hide Encode;
    assert [m][1..] == [];
    assert Encode(m.kind, m.payload, []) + [] == Encode(m.kind, m.payload, []);
  }
}
