/** preview.rs: the frames a viewer gets, cached, and the parts they are sent in. */
module Preview {
  import opened Bytes
  import opened Decimal
  import opened Pixels
  import opened Session
  import opened SessionCallbacks
  import ImageScale

  // ----- parts

  const PART_HEAD: bytes :=
    Chars("--rdp-frame\r\n") + Chars("Content-Type: image/jpeg\r\n") + Chars("Content-Length: ")
  const BLANK_LINE: bytes := [13, 10, 13, 10]
  const LINE_END: bytes := [13, 10]

  /** multipart */
  function Multipart(jpeg: bytes): (r: bytes) {
    PART_HEAD + (DecimalInt(|jpeg|) + (BLANK_LINE + (jpeg + LINE_END)))
  }

  /** The text around a picture. */
  lemma MultipartSpelled(jpeg: bytes)
    ensures Multipart(jpeg)
         == Chars("--rdp-frame\r\n") + Chars("Content-Type: image/jpeg\r\n") + Chars("Content-Length: ") + DecimalInt(|jpeg|)
            + Chars("\r\n\r\n") + jpeg + Chars("\r\n")
  {
    hide DecimalInt;
    HeadSpelled();
    LinesSpelled();
    var head, d, blank, end := PART_HEAD, DecimalInt(|jpeg|), BLANK_LINE, LINE_END;
    hide PART_HEAD, BLANK_LINE, LINE_END, Chars;
    assert head + (d + (blank + (jpeg + end))) == head + d + blank + jpeg + end;
  }

  lemma HeadSpelled()
    ensures PART_HEAD == Chars("--rdp-frame\r\n") + Chars("Content-Type: image/jpeg\r\n") + Chars("Content-Length: ")
  {}

  lemma LinesSpelled()
    ensures BLANK_LINE == Chars("\r\n\r\n") && LINE_END == Chars("\r\n")
  {}

  function Multiparts(jpegs: seq<bytes>): (r: bytes) {
    if jpegs == [] then [] else Multipart(jpegs[0]) + Multiparts(jpegs[1..])
  }

  /** One part off the front of a stream, its content found by its length. */
  function ReadPart(stream: bytes): (r: Option<(bytes, bytes)>)
    ensures r.Some? ==> |r.value.1| < |stream|
  {
    if !At(stream, 0, PART_HEAD) then None
    else
      var k := DigitRun(stream, |PART_HEAD|);
      var n := DigitsValue(stream[|PART_HEAD|..k]);
      if k == |PART_HEAD| || n < 0 || !At(stream, k, BLANK_LINE) || !At(stream, k + 4 + n, LINE_END) then None
      else Some((stream[k + 4..k + 4 + n], stream[k + 4 + n + 2..]))
  }

  function ReadParts(stream: bytes): (r: Option<seq<bytes>>)
    decreases |stream|
  {
    if stream == [] then Some([])
    else
      match ReadPart(stream)
      case None => None
      case Some((jpeg, rest)) =>
        match ReadParts(rest)
        case None => None
        case Some(others) => Some([jpeg] + others)
  }

  lemma {:induction false} DigitRunStops(s: bytes, i: nat, j: nat)
    requires i <= j < |s| && !IsDigit(s[j])
    requires forall k :: i <= k < j ==> IsDigit(s[k])
    ensures DigitRun(s, i) == j
    decreases j - i
  {
    if i < j { DigitRunStops(s, i + 1, j); }
  }

  lemma ReadOfPart(jpeg: bytes, rest: bytes)
    ensures ReadPart(Multipart(jpeg) + rest) == Some((jpeg, rest))
  {
    hide At, DigitRun, DigitsValue, Digits, DecimalInt, PART_HEAD;
    var s, d := Multipart(jpeg) + rest, DecimalInt(|jpeg|);
    DigitsRoundTrip(|jpeg|);
    LengthIsDigits(|jpeg|);
    var o := |PART_HEAD|;
    PartPieces(jpeg, rest);
    AtAll(s, o, d);
    AtIndex(s, o + |d|, BLANK_LINE, 0);
    DigitRunStops(s, o, o + |d|);
    assert s[o..o + |d|] == d by { SliceOf(s, o, d); }
    SliceOf(s, o + |d| + 4, jpeg);
  }

  lemma SliceOf(s: bytes, o: nat, t: bytes)
    requires At(s, o, t)
    ensures o + |t| <= |s| && s[o..o + |t|] == t
  {}

  lemma LengthIsDigits(n: nat)
    ensures DecimalInt(n) == Digits(n) && |Digits(n)| > 0
  {}

  lemma PartPieces(jpeg: bytes, rest: bytes)
    ensures var s, d, o := Multipart(jpeg) + rest, DecimalInt(|jpeg|), |PART_HEAD|;
            && At(s, 0, PART_HEAD) && At(s, o, d) && At(s, o + |d|, BLANK_LINE)
            && At(s, o + |d| + 4, jpeg) && At(s, o + |d| + 4 + |jpeg|, LINE_END)
            && o + |d| + 4 + |jpeg| + 2 <= |s| && s[o + |d| + 4 + |jpeg| + 2..] == rest
  {
    hide At, DecimalInt, PART_HEAD;
    var m, s, d, o := Multipart(jpeg), Multipart(jpeg) + rest, DecimalInt(|jpeg|), |PART_HEAD|;
    Whole(s, m, rest);
    AtConcat(s, 0, m, rest);
    AtConcat(s, 0, PART_HEAD, d + (BLANK_LINE + (jpeg + LINE_END)));
    AtConcat(s, o, d, BLANK_LINE + (jpeg + LINE_END));
    AtConcat(s, o + |d|, BLANK_LINE, jpeg + LINE_END);
    AtConcat(s, o + |d| + 4, jpeg, LINE_END);
    assert |m| == o + |d| + 4 + |jpeg| + 2;
  }

  lemma Whole(s: bytes, m: bytes, rest: bytes)
    requires s == m + rest
    ensures At(s, 0, m + rest)
  {
    assert s[0..|s|] == s;
  }

  /** A reader gets every picture back, whatever bytes they are made of. */
  lemma {:induction false} ReadOfParts(jpegs: seq<bytes>)
    ensures ReadParts(Multiparts(jpegs)) == Some(jpegs)
  {
    hide ReadPart, Multipart;
    if jpegs != [] {
      ReadOfPart(jpegs[0], Multiparts(jpegs[1..]));
      ReadOfParts(jpegs[1..]);
      PartIsNotEmpty(jpegs[0]);
      assert jpegs == [jpegs[0]] + jpegs[1..];
    }
  }

  lemma PartIsNotEmpty(jpeg: bytes)
    ensures Multipart(jpeg) != []
  {
    hide DecimalInt;
  }

  // ----- the cache

  /** What the JPEG encoder makes of RGB pixels and a size in 16 bits each, or its failure. */
  type Encoder = (bytes, nat, nat) -> Option<bytes>

  /** image::encode as the preview calls it: the whole frame, unscaled, its alpha dropped. */
  function EncodeFrame(jpeg: Encoder, f: Frame): (r: Option<bytes>) {
    if f.width == 0 || f.height == 0 || |f.pixels| != Size(f.width, f.height) then None
    else jpeg(ImageScale.Rgb(f.pixels), f.width % 0x1_0000, f.height % 0x1_0000)
  }

  /** A viewer's cached part and what it was made of. */
  datatype Cache = Cache(key: Option<(nat, nat, nat)>, part: bytes)

  const EMPTY := Cache(None, [])

  function KeyOf(f: Frame): (r: (nat, nat, nat)) {
    (f.width, f.height, f.version)
  }

  /** One pull of the viewer; None when its stream ends. */
  function PullOnce(jpeg: Encoder, cache: Cache, sample: Sample): (r: Option<Cache>) {
    match sample
    case Gone => None
    case Nothing => Some(EMPTY)
    case Seen(f) =>
      if cache.key == Some(KeyOf(f)) then Some(cache)
      else
        match EncodeFrame(jpeg, f)
        case Some(j) => Some(Cache(Some(KeyOf(f)), Multipart(j)))
        case None => Some(EMPTY)
  }

  /** A pull without a cache. */
  function PullAfresh(jpeg: Encoder, sample: Sample): (r: Option<bytes>) {
    match sample
    case Gone => None
    case Nothing => Some([])
    case Seen(f) =>
      match EncodeFrame(jpeg, f)
      case Some(j) => Some(Multipart(j))
      case None => Some([])
  }

  datatype Move = Change(action: Action) | Pull(busy: bool)

  /** The parts the viewer's pulls give, an empty one for each that sends nothing. */
  function Cached(jpeg: Encoder, s: State, cache: Cache, moves: seq<Move>): (r: seq<bytes>)
    requires Valid(s)
    decreases |moves|
  {
    if moves == [] then []
    else
      match moves[0]
      case Change(action) =>
        ActKeepsValid(s, action);
        Cached(jpeg, Act(s, action), cache, moves[1..])
      case Pull(busy) =>
        match PullOnce(jpeg, cache, SampleOf(s, busy))
        case None => []
        case Some(next) => [next.part] + Cached(jpeg, s, next, moves[1..])
  }

  /** The same, encoding every frame anew. */
  function Afresh(jpeg: Encoder, s: State, moves: seq<Move>): (r: seq<bytes>)
    requires Valid(s)
    decreases |moves|
  {
    if moves == [] then []
    else
      match moves[0]
      case Change(action) =>
        ActKeepsValid(s, action);
        Afresh(jpeg, Act(s, action), moves[1..])
      case Pull(busy) =>
        match PullAfresh(jpeg, SampleOf(s, busy))
        case None => []
        case Some(part) => [part] + Afresh(jpeg, s, moves[1..])
  }

  /** A cached part is the current frame's part as long as its key is the current frame's key. */
  predicate Fresh(jpeg: Encoder, s: State, cache: Cache) {
    match cache.key
    case None => cache.part == []
    case Some((w, h, version)) =>
      && version <= s.version
      && (s.hasFrame && s.version == version ==>
            var f := Frame(s.width, s.height, s.version, s.framebuffer);
            KeyOf(f) == (w, h, version) && EncodeFrame(jpeg, f).Some?
            && cache.part == Multipart(EncodeFrame(jpeg, f).value))
  }

  /** `rgb` has the colours of every pixel, without alpha. */
  ghost predicate Colours(rgb: bytes, rgba: bytes, width: nat, height: nat) {
    && |rgba| == width * height * 4 && |rgb| == width * height * 3
    && forall k :: 0 <= k < width * height ==> rgb[k * 3..k * 3 + 3] == rgba[k * 4..k * 4 + 3]
  }

  lemma RgbColours(rgba: bytes, width: nat, height: nat)
    requires |rgba| == width * height * 4
    ensures Colours(ImageScale.Rgb(rgba), rgba, width, height)
  {
    hide ImageScale.Rgb;
    forall k | 0 <= k < width * height
      ensures k * 3 + 3 <= |ImageScale.Rgb(rgba)| && ImageScale.Rgb(rgba)[k * 3..k * 3 + 3] == rgba[k * 4..k * 4 + 3]
    {
      ImageScale.RgbPixel(rgba, k);
    }
  }

  /**
   * What one pull gives, whatever is cached. The stream ends exactly when the session has stopped or
   * failed and its lock is free. Nothing is sent while the lock is taken, before READY and without a
   * picture. Else it is the part of the JPEG of the desktop's colours, width and height, if there is one.
   */
  lemma PullSends(jpeg: Encoder, s: State, cache: Cache, busy: bool) returns (rgb: bytes)
    requires Valid(s) && Fresh(jpeg, s, cache)
    ensures var r := PullOnce(jpeg, cache, SampleOf(s, busy));
            && (r.None? <==> !busy && (s.disconnected || s.error.Some?))
            && (r.Some? && (busy || !s.connected || !s.hasFrame) ==> r.value.part == [])
            && (r.Some? && !busy && s.connected && s.hasFrame ==>
                  && Colours(rgb, s.framebuffer, s.width, s.height)
                  && r.value.part == match jpeg(rgb, s.width, s.height)
                                     case Some(j) => Multipart(j)
                                     case None => [])
  {
    hide ImageScale.Rgb, Colours, Multipart;
    rgb := ImageScale.Rgb(s.framebuffer);
    PullKeepsFresh(jpeg, s, cache, busy);
    if !s.disconnected && s.hasFrame {
      RgbColours(s.framebuffer, s.width, s.height);
      FrameEncoded(jpeg, s);
    }
  }

  lemma FrameEncoded(jpeg: Encoder, s: State)
    requires Valid(s) && !s.disconnected && s.hasFrame
    ensures EncodeFrame(jpeg, Frame(s.width, s.height, s.version, s.framebuffer))
         == jpeg(ImageScale.Rgb(s.framebuffer), s.width, s.height)
    ensures |s.framebuffer| == s.width * s.height * 4
  {}

  lemma ChangeKeepsFresh(jpeg: Encoder, s: State, cache: Cache, action: Action)
    requires Valid(s) && Fresh(jpeg, s, cache)
    ensures Fresh(jpeg, Act(s, action), cache)
  {
    hide Act, EncodeFrame, Multipart;
    ActKeepsPicture(s, action);
  }

  lemma PullKeepsFresh(jpeg: Encoder, s: State, cache: Cache, busy: bool)
    requires Fresh(jpeg, s, cache)
    ensures var r := PullOnce(jpeg, cache, SampleOf(s, busy));
            && (r.None? <==> PullAfresh(jpeg, SampleOf(s, busy)).None?)
            && (r.Some? ==> Fresh(jpeg, s, r.value) && PullAfresh(jpeg, SampleOf(s, busy)) == Some(r.value.part))
  {
    hide EncodeFrame, Multipart;
  }

  /**
   * Over every run, resizes back to the same size and all, the cached viewer sends exactly
   * the parts a viewer sends that encodes each frame it samples.
   */
  lemma {:induction false} CacheIsExact(jpeg: Encoder, s: State, cache: Cache, moves: seq<Move>)
    requires Valid(s) && Fresh(jpeg, s, cache)
    ensures Cached(jpeg, s, cache, moves) == Afresh(jpeg, s, moves)
    decreases |moves|
  {
    hide Act, SampleOf, PullOnce, PullAfresh, Fresh;
    if moves != [] {
      match moves[0]
      case Change(action) =>
        ActKeepsValid(s, action);
        ChangeKeepsFresh(jpeg, s, cache, action);
        CacheIsExact(jpeg, Act(s, action), cache, moves[1..]);
      case Pull(busy) =>
        PullKeepsFresh(jpeg, s, cache, busy);
        var r := PullOnce(jpeg, cache, SampleOf(s, busy));
        if r.Some? { CacheIsExact(jpeg, s, r.value, moves[1..]); }
    }
  }

  /** A new viewer starts with nothing cached, at any point of the session's life. */
  lemma NewViewerIsExact(jpeg: Encoder, actions: seq<Action>, moves: seq<Move>)
    ensures Valid(INITIAL)
    ensures Cached(jpeg, Run(INITIAL, actions), EMPTY, moves) == Afresh(jpeg, Run(INITIAL, actions), moves)
  {
    Session.NoPixels();
    CacheIsExact(jpeg, Run(INITIAL, actions), EMPTY, moves);
  }

  // ----- in place

  class Viewer {
    const jpeg: Encoder
    var key: Option<(nat, nat, nat)>
    var part: bytes

    constructor (jpeg: Encoder)
      ensures this.jpeg == jpeg && Cache(key, part) == EMPTY
    {
      this.jpeg, this.key, this.part := jpeg, None, [];
    }

    /** The closure of stream_preview's loop; false when the stream ends. */
    method Pull(source: CallbackState, busy: bool) returns (alive: bool)
      requires Valid(source.View())
      modifies this
      ensures match PullOnce(jpeg, old(Cache(key, part)), SampleOf(source.View(), busy))
              case None => !alive
              case Some(next) => alive && Cache(key, part) == next
    {
      hide EncodeFrame, Multipart, Valid;
      var sample := source.Sample(busy);
      alive := true;
      match sample
      case Gone =>
        return false;
      case Nothing =>
        key, part := None, [];
      case Seen(frame) =>
        if key != Some(KeyOf(frame)) {
          FrameFits(source.View());
          var encoded := Encode(frame);
          if encoded.Some? {
            part := MakePart(encoded.value);
            key := Some(KeyOf(frame));
          } else {
            key, part := None, [];
          }
        }
    }

    lemma FrameFits(s: State)
      requires Valid(s)
      ensures s.width <= MAX_SIDE && s.height <= MAX_SIDE
    {}

    /** image::encode for a preview: crop the whole, scale nothing, drop alpha, encode. */
    method Encode(f: Frame) returns (r: Option<bytes>)
      requires f.width < 0x1_0000_0000 && f.height < 0x1_0000_0000
      ensures r == EncodeFrame(jpeg, f)
    {
      hide ImageScale.Rgb, ImageScale.IsSampled;
      var picture := ImageScale.MakePicture(f.pixels, f.width, f.height, None, None);
      if picture.None? {
        return None;
      }
      ImageScale.WholePicture(picture.value, f.pixels);
      var rgb := ImageScale.RgbaToRgb(picture.value.pixels);
      r := jpeg(rgb, picture.value.width % 0x1_0000, picture.value.height % 0x1_0000);
    }

    method MakePart(jpeg: bytes) returns (part: bytes)
      ensures part == Multipart(jpeg)
    {
      hide DecimalInt, PART_HEAD;
      var d := DecimalInt(|jpeg|);
      part := PART_HEAD + d + BLANK_LINE;
      part := part + jpeg;
      part := part + LINE_END;
      assert PART_HEAD + d + BLANK_LINE + jpeg + LINE_END == PART_HEAD + (d + (BLANK_LINE + (jpeg + LINE_END)));
    }
  }
}
