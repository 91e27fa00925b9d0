/**
 * disp.c: resize requests, held back while the channel is not ready or the last layout went
 * out too recently. What happens under the module's mutex is one step.
 */
module DisplayControl {
  import opened Bytes

  const RATE_LIMIT := 200
  const MIN_SIZE := 200
  const MAX_SIZE := 8192

  datatype Layout = Layout(width: int, height: int, desktopScale: int, deviceScale: int)

  datatype State = State(
    attached: bool,
    activated: bool,
    lastSend: nat,
    pending: Option<Layout>,
    initial: Option<Layout>
  )

  const INITIAL := State(false, false, 0, None, None)

  /** A monitor layout that went out. `byCaps`: the server's capabilities made it go. */
  datatype Sent = Sent(layout: Layout, time: nat, byCaps: bool)

  function ClampEven(v: int): (r: int)
    ensures MIN_SIZE <= r <= MAX_SIZE && r % 2 == 0
  {
    var c := if v < MIN_SIZE then MIN_SIZE else if v > MAX_SIZE then MAX_SIZE else v;
    c - c % 2
  }

  /** What is sent is the largest even size not above the one asked for, within the limits. */
  lemma ClampEvenIsNearest(v: int, r: int)
    requires MIN_SIZE <= r <= MAX_SIZE && r % 2 == 0
    ensures MIN_SIZE <= v && r <= v ==> r <= ClampEven(v) <= v
    ensures v < MIN_SIZE ==> ClampEven(v) <= r
  {}

  function Clamped(layout: Layout): (r: Layout) {
    layout.(width := ClampEven(layout.width), height := ClampEven(layout.height))
  }

  /** now_ms() - s_last_send_ms in 64 bits. */
  function Elapsed(now: nat, last: nat): (r: nat) {
    (now - last) % 0x1_0000_0000_0000_0000
  }

  /** The channel's answer to a layout and the time when it came. */
  datatype Channel = Channel(takes: bool, time: nat)

  /** send_resize_locked */
  function Send(s: State, layout: Layout, channel: Channel, byCaps: bool): (r: (State, seq<Sent>)) {
    if !s.attached || !s.activated || !channel.takes then (s, [])
    else (s.(lastSend := channel.time), [Sent(layout, channel.time, byCaps)])
  }

  /** cb_disp_caps */
  function Caps(s: State, channel: Channel): (r: (State, seq<Sent>)) {
    var t := s.(activated := true, initial := None);
    if s.pending.Some? then Send(t.(pending := None), s.pending.value, channel, true)
    else if s.initial.Some? then Send(t, s.initial.value, channel, true)
    else (t, [])
  }

  /** disp_request_resize, at the time `now`. */
  function Request(s: State, layout: Layout, now: nat, channel: Channel): (r: (State, seq<Sent>)) {
    if !s.attached || !s.activated || Elapsed(now, s.lastSend) < RATE_LIMIT
    then (s.(pending := Some(Clamped(layout))), [])
    else
      var (t, sent) := Send(s, Clamped(layout), channel, false);
      (t.(pending := None), sent)
  }

  /** disp_check_pending */
  function CheckPending(s: State, now: nat, channel: Channel): (r: (State, seq<Sent>)) {
    if s.pending.None? || !s.attached || !s.activated || Elapsed(now, s.lastSend) < RATE_LIMIT then (s, [])
    else Send(s.(pending := None), s.pending.value, channel, false)
  }

  function Connected(s: State): (r: State) {
    s.(attached := true, activated := false)
  }

  /** What is pending survives a lost channel. */
  function Disconnected(s: State): (r: State) {
    s.(attached := false, activated := false)
  }

  function SetInitial(s: State, layout: Layout): (r: State) {
    s.(initial := Some(Clamped(layout)))
  }

  /** The module's globals, changed in place, and the layouts that went out. */
  class Display {
    var attached: bool
    var activated: bool
    var lastSend: nat
    var pending: bool
    var pendingLayout: Layout
    var initialSet: bool
    var initialLayout: Layout
    var sent: seq<Sent>

    constructor ()
      ensures View() == INITIAL && sent == []
    {
      attached, activated, lastSend, pending, initialSet, sent := false, false, 0, false, false, [];
      pendingLayout := Layout(0, 0, 100, 100);
      initialLayout := Layout(0, 0, 100, 100);
    }

    ghost function View(): (r: State)
      reads this
    {
      State(attached, activated, lastSend,
            if pending then Some(pendingLayout) else None,
            if initialSet then Some(initialLayout) else None)
    }

    method SendLocked(layout: Layout, channel: Channel, byCaps: bool) returns (ok: bool)
      modifies this`lastSend, this`sent
      ensures (View(), sent) == (Send(old(View()), layout, channel, byCaps).0,
                                 old(sent) + Send(old(View()), layout, channel, byCaps).1)
      ensures ok <==> Send(old(View()), layout, channel, byCaps).1 != []
    {
      assert sent + [] == sent;
      if !attached || !activated {
        return false;
      }
      if !channel.takes {
        return false;
      }
      lastSend := channel.time;
      sent := sent + [Sent(layout, channel.time, byCaps)];
      return true;
    }

    method OnCaps(channel: Channel)
      modifies this
      ensures (View(), sent) == (Caps(old(View()), channel).0, old(sent) + Caps(old(View()), channel).1)
    {
      hide Send;
      activated := true;
      assert sent + [] == sent;
      if pending {
        pending := false;
        SendIgnoresInitial(View(), pendingLayout, channel, true);
        var ok := SendLocked(pendingLayout, channel, true);
      } else if initialSet {
        SendIgnoresInitial(View(), initialLayout, channel, true);
        var ok := SendLocked(initialLayout, channel, true);
      }
      initialSet := false;
    }

    lemma SendIgnoresInitial(s: State, layout: Layout, channel: Channel, byCaps: bool)
      ensures var (t, sent) := Send(s, layout, channel, byCaps);
              Send(s.(initial := None), layout, channel, byCaps) == (t.(initial := None), sent)
    {}

    method RequestResize(layout: Layout, now: nat, channel: Channel)
      modifies this
      ensures (View(), sent) == (Request(old(View()), layout, now, channel).0,
                                 old(sent) + Request(old(View()), layout, now, channel).1)
    {
      hide ClampEven;
      var clamped := layout.(width := ClampEven(layout.width), height := ClampEven(layout.height));
      assert sent + [] == sent;
      if !attached || !activated {
        pending, pendingLayout := true, clamped;
        return;
      }
      var elapsed := Elapsed(now, lastSend);
      if elapsed < RATE_LIMIT {
        pending, pendingLayout := true, clamped;
        return;
      }
      var ok := SendLocked(clamped, channel, false);
      pending := false;
    }

    method Check(now: nat, channel: Channel)
      modifies this
      ensures (View(), sent) == (CheckPending(old(View()), now, channel).0,
                                 old(sent) + CheckPending(old(View()), now, channel).1)
    {
      hide Send;
      assert sent + [] == sent;
      if !pending || !attached || !activated {
        return;
      }
      var elapsed := Elapsed(now, lastSend);
      if elapsed < RATE_LIMIT {
        return;
      }
      pending := false;
      var ok := SendLocked(pendingLayout, channel, false);
    }

    method ChannelConnected()
      modifies this`attached, this`activated
      ensures View() == Connected(old(View()))
    {
      attached, activated := true, false;
    }

    method ChannelDisconnected()
      modifies this`attached, this`activated
      ensures View() == Disconnected(old(View()))
    {
      attached, activated := false, false;
    }

    method SetInitialLayout(layout: Layout)
      modifies this`initialSet, this`initialLayout
      ensures View() == SetInitial(old(View()), layout)
    {
      initialLayout := layout.(width := ClampEven(layout.width), height := ClampEven(layout.height));
      initialSet := true;
    }
  }

  // ----- runs

  datatype Event =
    | ServerCaps(channel: Channel)
    | Ask(layout: Layout, now: nat, channel: Channel)
    | Poll(now: nat, channel: Channel)
    | ChannelUp
    | ChannelDown
    | Begin(layout: Layout)

  /** `latest`: the size last asked for; `begun`: the initial layout last set; `greeted`: capabilities came. */
  datatype World = World(
    s: State,
    sent: seq<Sent>,
    latest: Option<Layout>,
    begun: Option<Layout>,
    greeted: bool,
    clock: nat
  )

  const START := World(INITIAL, [], None, None, false, 0)

  /** The clock does not go back, capabilities come on a channel, and the initial layout is set before them. */
  predicate Enabled(w: World, e: Event) {
    match e
    case ServerCaps(channel) => w.s.attached && w.clock <= channel.time < 0x1_0000_0000_0000_0000
    case Ask(_, now, channel) => w.clock <= now <= channel.time < 0x1_0000_0000_0000_0000
    case Poll(now, channel) => w.clock <= now <= channel.time < 0x1_0000_0000_0000_0000
    case Begin(_) => !w.greeted
    case _ => true
  }

  function Outcome(s: State, e: Event): (r: (State, seq<Sent>)) {
    match e
    case ServerCaps(channel) => Caps(s, channel)
    case Ask(layout, now, channel) => Request(s, layout, now, channel)
    case Poll(now, channel) => CheckPending(s, now, channel)
    case ChannelUp => (Connected(s), [])
    case ChannelDown => (Disconnected(s), [])
    case Begin(layout) => (SetInitial(s, layout), [])
  }

  function Step(w: World, e: Event): (r: World) {
    var (s, sent) := Outcome(w.s, e);
    World(s, w.sent + sent,
          if e.Ask? then Some(e.layout) else w.latest,
          if e.Begin? then Some(e.layout) else w.begun,
          w.greeted || e.ServerCaps?,
          if e.Ask? || e.Poll? || e.ServerCaps? then e.channel.time else w.clock)
  }

  function LastSent(w: World): (r: Option<Layout>) {
    if w.sent == [] then None else Some(w.sent[|w.sent| - 1].layout)
  }

  // ----- what a size becomes

  /** `sent` is the largest even number within 200..8192 that is not above `asked`, and 200 where there is none. */
  predicate BestSide(sent: int, asked: int) {
    && 200 <= sent <= 8192 && sent % 2 == 0
    && if asked < 200 then sent == 200 else sent <= asked && (sent == 8192 || asked < sent + 2)
  }

  /** What is sent or waits stands for what was asked for, in either direction, with its scale factors. */
  predicate Shows(sent: Layout, asked: Layout) {
    && BestSide(sent.width, asked.width) && BestSide(sent.height, asked.height)
    && sent.desktopScale == asked.desktopScale && sent.deviceScale == asked.deviceScale
  }

  predicate Stands(sent: Option<Layout>, asked: Option<Layout>) {
    sent.Some? && asked.Some? && Shows(sent.value, asked.value)
  }

  lemma ShowsIs(sent: Layout, asked: Layout)
    ensures Shows(sent, asked) <==> sent == Clamped(asked)
  {
    BestSideIs(sent.width, asked.width);
    BestSideIs(sent.height, asked.height);
    hide ClampEven, BestSide;
  }

  lemma BestSideIs(sent: int, asked: int)
    ensures BestSide(sent, asked) <==> sent == ClampEven(asked)
  {}

  /** The latest size asked for waits to be sent, or is the last one sent. */
  predicate LatestWins(w: World) {
    w.latest.None? || Stands(w.s.pending, w.latest) || (w.s.pending.None? && Stands(LastSent(w), w.latest))
  }

  predicate Proper(layout: Layout) {
    && 200 <= layout.width <= 8192 && layout.width % 2 == 0
    && 200 <= layout.height <= 8192 && layout.height % 2 == 0
  }

  /** What is kept whatever the channel does. */
  predicate Basics(w: World) {
    && w.s.lastSend == (if w.sent == [] then 0 else w.sent[|w.sent| - 1].time)
    && w.s.lastSend <= w.clock < 0x1_0000_0000_0000_0000
    && (w.s.pending.Some? ==> Stands(w.s.pending, w.latest))
    && (w.s.initial.Some? ==> Stands(w.s.initial, w.begun) && !w.greeted)
    && (!w.greeted ==> w.sent == [] && !w.s.activated && (w.latest.Some? ==> w.s.pending.Some?))
    && (!w.greeted ==> (w.begun.Some? ==> w.s.initial.Some?))
    && (w.s.activated ==> w.s.attached)
  }

  predicate Spaced(sent: seq<Sent>) {
    forall k :: 0 <= k < |sent| ==>
      Proper(sent[k].layout) && (k > 0 && !sent[k].byCaps ==> sent[k].time >= sent[k - 1].time + 200)
  }

  lemma SpacedAppend(sent: seq<Sent>, next: Sent)
    requires Spaced(sent) && Proper(next.layout)
    requires sent != [] && !next.byCaps ==> next.time >= sent[|sent| - 1].time + RATE_LIMIT
    ensures Spaced(sent + [next])
  {
    hide Proper;
  }

  /** One layout sent, or none. */
  lemma SendKeepsSpaced(w: World, s: State, layout: Layout, channel: Channel, byCaps: bool)
    requires Spaced(w.sent) && Proper(layout)
    requires w.sent != [] && !byCaps ==> channel.time >= w.sent[|w.sent| - 1].time + RATE_LIMIT
    ensures Spaced(w.sent + Send(s, layout, channel, byCaps).1)
  {
    hide Proper, Spaced;
    assert w.sent + [] == w.sent;
    SpacedAppend(w.sent, Sent(layout, channel.time, byCaps));
  }

  lemma StepKeepsSpaced(w: World, e: Event)
    requires Basics(w) && Spaced(w.sent) && Enabled(w, e)
    ensures Spaced(Step(w, e).sent)
  {
    hide ClampEven, Spaced, Proper, Elapsed, Send, Clamped, Shows;
    assert w.sent + [] == w.sent;
    match e
    case ServerCaps(channel) =>
      var t := w.s.(activated := true, initial := None);
      if w.s.pending.Some? {
        ShownIsProper(w.s.pending.value, w.latest.value);
        SendKeepsSpaced(w, t.(pending := None), w.s.pending.value, channel, true);
      } else if w.s.initial.Some? {
        ShownIsProper(w.s.initial.value, w.begun.value);
        SendKeepsSpaced(w, t, w.s.initial.value, channel, true);
      }
    case Ask(layout, now, channel) =>
      ClampedShows(layout);
      ShownIsProper(Clamped(layout), layout);
      ElapsedIsDifference(now, w.s.lastSend);
      if Elapsed(now, w.s.lastSend) >= RATE_LIMIT {
        SendKeepsSpaced(w, w.s, Clamped(layout), channel, false);
      }
    case Poll(now, channel) =>
      ElapsedIsDifference(now, w.s.lastSend);
      if w.s.pending.Some? && Elapsed(now, w.s.lastSend) >= RATE_LIMIT {
        ShownIsProper(w.s.pending.value, w.latest.value);
        SendKeepsSpaced(w, w.s.(pending := None), w.s.pending.value, channel, false);
      }
    case _ =>
  }

  lemma StepKeepsBasics(w: World, e: Event)
    requires Basics(w) && Spaced(w.sent) && Enabled(w, e)
    ensures Basics(Step(w, e)) && Spaced(Step(w, e).sent)
  {
    StepKeepsSpaced(w, e);
    hide ClampEven, Spaced, Proper, Elapsed, Clamped, Shows;
    if e.Ask? || e.Begin? { ClampedShows(e.layout); }
  }

  lemma ClampedShows(layout: Layout)
    ensures Shows(Clamped(layout), layout)
  {
    ShowsIs(Clamped(layout), layout);
  }

  lemma ShownIsProper(sent: Layout, asked: Layout)
    requires Shows(sent, asked)
    ensures Proper(sent)
  {}

  lemma ElapsedIsDifference(now: nat, last: nat)
    requires last <= now < 0x1_0000_0000_0000_0000
    ensures Elapsed(now, last) == now - last
  {}

  /** Whether a step puts a requested size on the channel: it is ready, and nothing went out within 200 ms. */
  predicate Tries(w: World, e: Event) {
    match e
    case ServerCaps(_) => w.s.pending.Some?
    case Ask(_, now, _) => w.s.attached && w.s.activated && now >= w.s.lastSend + 200
    case Poll(now, _) => w.s.pending.Some? && w.s.attached && w.s.activated && now >= w.s.lastSend + 200
    case _ => false
  }

  /** A size that the channel refuses is not tried again; unless it was the last one sent anyway, it is lost. */
  predicate Refused(w: World, e: Event) {
    Tries(w, e) && !e.channel.takes && !Stands(LastSent(w), Step(w, e).latest)
  }

  /** A layout goes out: it stands for the one asked for, if the channel takes it. */
  predicate Goes(before: seq<Sent>, after: seq<Sent>, asked: Option<Layout>, channel: Channel, byCaps: bool) {
    if channel.takes then
      && |after| == |before| + 1 && after[..|before|] == before
      && after[|before|].time == channel.time && after[|before|].byCaps == byCaps
      && Stands(Some(after[|before|].layout), asked)
    else after == before
  }

  /**
   * What every step sends. A request goes out at once or waits in the place of the one before it;
   * a poll and capabilities send what waits, and the first capabilities, when nothing waits, the
   * initial layout.
   */
  lemma StepSends(w: World, e: Event)
    requires Basics(w) && Enabled(w, e)
    ensures var r := Step(w, e);
            if Tries(w, e) then Goes(w.sent, r.sent, r.latest, e.channel, e.ServerCaps?) && r.s.pending.None?
            else if e.ServerCaps? && !w.greeted && w.begun.Some? then
              Goes(w.sent, r.sent, w.begun, e.channel, true) && r.s.pending == w.s.pending
            else
              && r.sent == w.sent
              && if e.Ask? then Stands(r.s.pending, Some(e.layout)) else r.s.pending == w.s.pending
  {
    hide ClampEven, Elapsed, Clamped, Shows;
    assert w.sent + [] == w.sent;
    match e
    case Ask(layout, now, _) =>
      ClampedShows(layout);
      ElapsedIsDifference(now, w.s.lastSend);
    case Poll(now, _) => ElapsedIsDifference(now, w.s.lastSend);
    case _ =>
  }

  /** The latest size wins after a step exactly when the channel did not refuse it in that step. */
  lemma LatestWinsUnlessRefused(w: World, e: Event)
    requires Basics(w) && LatestWins(w) && Enabled(w, e)
    ensures LatestWins(Step(w, e)) <==> !Refused(w, e)
  {
    hide Outcome, Shows;
    StepSends(w, e);
  }

  /**
   * Whatever was refused before, a new request is on top again exactly when the channel did
   * not refuse it in its own step.
   */
  lemma AskingWinsUnlessRefused(w: World, e: Event)
    requires Basics(w) && Enabled(w, e) && e.Ask?
    ensures LatestWins(Step(w, e)) <==> !Refused(w, e)
  {
    hide Outcome, Shows;
    StepSends(w, e);
  }

  /** For example: the one size asked for is refused, and forgotten. */
  lemma ARefusedSizeIsLost(layout: Layout)
    ensures var asked := Step(Step(START, ChannelUp), Ask(layout, 1000, Channel(true, 1000)));
            var e := ServerCaps(Channel(false, 1001));
            Enabled(asked, e) && !LatestWins(Step(asked, e))
  {
    hide ClampEven;
  }

  predicate Possible(w: World, events: seq<Event>)
    decreases |events|
  {
    events == [] || (Enabled(w, events[0]) && Possible(Step(w, events[0]), events[1..]))
  }

  predicate NeverRefused(w: World, events: seq<Event>)
    decreases |events|
  {
    events == [] || (!Refused(w, events[0]) && NeverRefused(Step(w, events[0]), events[1..]))
  }

  function Run(w: World, events: seq<Event>): (r: World)
    decreases |events|
  {
    if events == [] then w else Run(Step(w, events[0]), events[1..])
  }

  lemma {:induction false} RunKeeps(w: World, events: seq<Event>)
    requires Basics(w) && Spaced(w.sent) && Possible(w, events)
    ensures Basics(Run(w, events)) && Spaced(Run(w, events).sent)
    ensures LatestWins(w) && NeverRefused(w, events) ==> LatestWins(Run(w, events))
    decreases |events|
  {
    hide Basics, Spaced, Step, Enabled, LatestWins, Refused;
    if events != [] {
      StepKeepsBasics(w, events[0]);
      if LatestWins(w) { LatestWinsUnlessRefused(w, events[0]); }
      RunKeeps(Step(w, events[0]), events[1..]);
    }
  }

  /**
   * Over every run all sizes sent are even and within the limits, and those that capabilities
   * did not cause come no sooner than the rate limit allows; while the channel refuses none,
   * the latest size asked for is pending or the last one sent.
   */
  lemma ResizesCoalesce(events: seq<Event>)
    requires Possible(START, events)
    ensures Spaced(Run(START, events).sent)
    ensures NeverRefused(START, events) ==> LatestWins(Run(START, events))
  {
    hide Run, Possible, NeverRefused;
    RunKeeps(START, events);
  }

  /** Refusals count only since the last request: from there on the latest size wins again. */
  lemma LatestWinsSinceLastAsk(before: seq<Event>, e: Event, after: seq<Event>)
    requires Possible(START, before) && e.Ask?
    requires var w := Run(START, before);
             && Enabled(w, e) && !Refused(w, e)
             && Possible(Step(w, e), after) && NeverRefused(Step(w, e), after)
    ensures LatestWins(Run(Step(Run(START, before), e), after))
  {
    hide Run, Possible, NeverRefused, Step, Refused, LatestWins;
    RunKeeps(START, before);
    var w := Run(START, before);
    AskingWinsUnlessRefused(w, e);
    StepKeepsBasics(w, e);
    RunKeeps(Step(w, e), after);
  }

  /** And once the rate limit has passed, a poll sends the latest size. */
  lemma PollSendsTheLatest(events: seq<Event>, now: nat, channel: Channel)
    requires Possible(START, events) && NeverRefused(START, events)
    requires var w := Run(START, events);
             && Enabled(w, Poll(now, channel)) && w.s.activated && w.latest.Some?
             && now >= w.s.lastSend + 200 && channel.takes
    ensures var r := Step(Run(START, events), Poll(now, channel)); r.s.pending.None? && Stands(LastSent(r), r.latest)
  {
    hide Run, Possible, NeverRefused, Outcome, Shows;
    RunKeeps(START, events);
    StepSends(Run(START, events), Poll(now, channel));
  }

  // ----- readiness, told from the events alone

  predicate HasChannel(events: seq<Event>) {
    events != []
    && match events[|events| - 1]
       case ChannelUp => true
       case ChannelDown => false
       case _ => HasChannel(events[..|events| - 1])
  }

  /** Capabilities came since the channel was last connected or lost. */
  predicate HasCaps(events: seq<Event>) {
    events != []
    && match events[|events| - 1]
       case ServerCaps(_) => true
       case ChannelUp => false
       case ChannelDown => false
       case _ => HasCaps(events[..|events| - 1])
  }

  lemma {:induction false} RunAppend(w: World, events: seq<Event>, e: Event)
    ensures Run(w, events + [e]) == Step(Run(w, events), e)
    decreases |events|
  {
    hide Step;
    if events == [] {
      assert events + [e] == [e] && [e][1..] == [];
    } else {
      assert (events + [e])[1..] == events[1..] + [e];
      RunAppend(Step(w, events[0]), events[1..], e);
    }
  }

  /** The module knows its channel, and from capabilities on, until the channel changes, that it is ready. */
  lemma {:induction false} ReadyFollows(events: seq<Event>)
    ensures Run(START, events).s.attached == HasChannel(events)
    ensures Run(START, events).s.activated == HasCaps(events)
  {
    hide Run, ClampEven, Elapsed;
    if events == [] {
      NoEvents();
    } else {
      var before, e := events[..|events| - 1], events[|events| - 1];
      assert events == before + [e];
      RunAppend(START, before, e);
      ReadyFollows(before);
    }
  }

  lemma NoEvents()
    ensures Run(START, []) == START
  {}
}
