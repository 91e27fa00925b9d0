/**
 * cliprdr_file.c: the locks on the server's clipboard, under every interleaving of the event
 * thread and the command thread. What one thread does under the module's mutex is one step;
 * each PDU sent outside it is another.
 */
module ClipboardLocks {
  import opened Bytes
  import D = Downloads

  datatype Pdu = Lock(id: nat) | Unlock(id: nat) | FileRequest(request: D.Request, lock: Option<nat>)

  /** Where the event thread is: between callbacks, or with PDUs still to send. */
  datatype EventThread =
    | Idle
    | UnlockOld(previous: nat, upcoming: nat)
    | LockNew(upcoming: nat)
    | UnlockDone(id: nat)

  /** Where the command thread is. */
  datatype CommandThread = Ready | UnlockAfter(id: nat)

  datatype World = World(
    d: D.State,
    lockId: nat,
    active: bool,
    nextLock: nat,
    pdus: seq<Pdu>,
    events: EventThread,
    commands: CommandThread
  )

  const START := World(D.INITIAL, 0, false, 100, [], Idle, Ready)

  datatype Step =
    | HasFiles
    | FormatData(answer: D.FormatData)
    | Reply(reply: D.Reply, disk: D.Disk)
    | ChannelUp
    | ChannelDown
    | EventThreadGoesOn
    | Download
    | CommandThreadGoesOn

  /** A callback starts only when the thread is done with the one before. */
  predicate Enabled(w: World, step: Step) {
    match step
    case EventThreadGoesOn => !w.events.Idle?
    case Download => w.commands.Ready?
    case CommandThreadGoesOn => !w.commands.Ready?
    case _ => w.events.Idle?
  }

  function Send(w: World, pdu: Pdu): (r: World) {
    w.(pdus := w.pdus + [pdu])
  }

  /** The request of a step, with the lock that is held as it is sent. */
  function SendRequest(w: World, request: Option<D.Request>): (r: World) {
    match request
    case None => w
    case Some(r) => Send(w, FileRequest(r, if w.active then Some(w.lockId) else None))
  }

  /** Whether the end of the queue gives the lock back. */
  predicate GivesBack(w: World, o: D.Outcome) {
    o.finished && w.active && o.state.connected
  }

  function Release(w: World, o: D.Outcome): (r: World) {
    SendRequest(w, o.request).(d := o.state, active := w.active && !GivesBack(w, o))
  }

  function Next(w: World, step: Step, net: D.Network): (r: World) {
    match step
    case HasFiles =>
      w.(d := D.HasFiles(w.d), lockId := w.nextLock, nextLock := w.nextLock + 1, active := true,
         events := if w.active then UnlockOld(w.lockId, w.nextLock) else LockNew(w.nextLock))
    case FormatData(answer) => w.(d := D.OnFormatData(w.d, answer))
    case Reply(reply, disk) =>
      var o := D.OnReply(w.d, reply, disk, net);
      Release(w, o).(events := if GivesBack(w, o) then UnlockDone(w.lockId) else w.events)
    case ChannelUp => w.(d := D.Connect(w.d))
    case ChannelDown => w.(d := D.Disconnect(w.d), active := false)
    case EventThreadGoesOn =>
      (match w.events
       case Idle => w
       case UnlockOld(previous, upcoming) => Send(w, Unlock(previous)).(events := LockNew(upcoming))
       case LockNew(upcoming) => Send(w, Lock(upcoming)).(events := Idle)
       case UnlockDone(id) => Send(w, Unlock(id)).(events := Idle))
    case Download =>
      var o := D.RequestDownload(w.d, net);
      Release(w, o).(commands := if GivesBack(w, o) then UnlockAfter(w.lockId) else w.commands)
    case CommandThreadGoesOn =>
      (match w.commands
       case Ready => w
       case UnlockAfter(id) => Send(w, Unlock(id)).(commands := Ready))
  }

  // ----- what is promised of the PDUs

  /**
   * A lock is taken once and given back at most once, after it was taken, and a request
   * names no lock or one that is held.
   */
  predicate GoodNext(before: seq<Pdu>, pdu: Pdu) {
    match pdu
    case Lock(id) => Lock(id) !in before && Unlock(id) !in before
    case Unlock(id) => Lock(id) in before && Unlock(id) !in before
    case FileRequest(_, lock) => lock.Some? ==> Lock(lock.value) in before && Unlock(lock.value) !in before
  }

  predicate Good(pdus: seq<Pdu>) {
    forall k :: 0 <= k < |pdus| ==> GoodNext(pdus[..k], pdus[k])
  }

  lemma GoodAppend(pdus: seq<Pdu>, pdu: Pdu)
    requires Good(pdus) && GoodNext(pdus, pdu)
    ensures Good(pdus + [pdu])
  {
    hide GoodNext;
    forall k | 0 <= k < |pdus| + 1 ensures GoodNext((pdus + [pdu])[..k], (pdus + [pdu])[k]) {
      if k < |pdus| {
        assert (pdus + [pdu])[..k] == pdus[..k];
      } else {
        assert (pdus + [pdu])[..k] == pdus;
      }
    }
  }

  // ----- the invariant

  /** A lock still to be given back: taken, not the one in use, and not given back yet. */
  predicate Owed(w: World, id: nat) {
    id < w.nextLock && Lock(id) in w.pdus && Unlock(id) !in w.pdus && !(w.active && id == w.lockId)
  }

  /** The files of a clipboard are not known before its lock is taken, so nothing can be asked for. */
  predicate Unasked(w: World, upcoming: nat) {
    && w.d.directories == [] && w.d.downloads == []
    && w.active && w.lockId == upcoming && Lock(upcoming) !in w.pdus
  }

  predicate EventThreadHolds(w: World) {
    match w.events
    case Idle => true
    case UnlockOld(previous, upcoming) => Owed(w, previous) && Unasked(w, upcoming)
    case LockNew(upcoming) => Unasked(w, upcoming)
    case UnlockDone(id) => Owed(w, id)
  }

  predicate CommandThreadHolds(w: World) {
    match w.commands
    case Ready => true
    case UnlockAfter(id) =>
      Owed(w, id) && w.events != UnlockDone(id) && !(w.events.UnlockOld? && w.events.previous == id)
  }

  ghost predicate LocksHold(w: World) {
    && w.lockId < w.nextLock
    && (w.active ==> Unlock(w.lockId) !in w.pdus)
    && (w.active && !w.events.UnlockOld? && !w.events.LockNew? ==> Lock(w.lockId) in w.pdus)
    && (forall id :: id >= w.nextLock ==> Lock(id) !in w.pdus && Unlock(id) !in w.pdus)
  }

  ghost predicate Inv(w: World) {
    Good(w.pdus) && LocksHold(w) && EventThreadHolds(w) && CommandThreadHolds(w)
  }

  lemma InvAtStart()
    ensures Inv(START)
  {}

  lemma SendKeeps(w: World, request: Option<D.Request>)
    requires Inv(w)
    requires request.Some? && w.active ==> !w.events.UnlockOld? && !w.events.LockNew?
    ensures Inv(SendRequest(w, request))
  {
    hide Good;
    if request.Some? {
      GoodAppend(w.pdus, FileRequest(request.value, if w.active then Some(w.lockId) else None));
    }
  }

  lemma ReleaseKeeps(w: World, o: D.Outcome)
    requires Inv(w) && (w.events.UnlockOld? || w.events.LockNew? ==> o == D.Quiet(w.d))
    ensures var r := Release(w, o);
            && Inv(r) && r.lockId == w.lockId && r.events == w.events && r.commands == w.commands
            && (GivesBack(w, o) ==> Owed(r, w.lockId) && !w.events.UnlockOld? && !w.events.LockNew?)
  {
    hide Good;
    SendKeeps(w, o.request);
    var s := SendRequest(w, o.request);
    SendsOnlyRequests(w, o.request);
  }

  lemma SendsOnlyRequests(w: World, request: Option<D.Request>)
    ensures var s := SendRequest(w, request);
            && s.lockId == w.lockId && s.active == w.active && s.nextLock == w.nextLock
            && s.events == w.events && s.commands == w.commands
            && forall id :: (Lock(id) in s.pdus <==> Lock(id) in w.pdus) && (Unlock(id) in s.pdus <==> Unlock(id) in w.pdus)
  {}

  /** Without files or downloads nothing is asked for. */
  lemma NothingToAsk(w: World, net: D.Network)
    requires Inv(w) && (w.events.UnlockOld? || w.events.LockNew?)
    ensures D.RequestDownload(w.d, net) == D.Quiet(w.d)
  {}

  lemma PduKeeps(w: World, id: nat, pdu: Pdu)
    requires Inv(w) && id < w.nextLock && (pdu == Lock(id) || pdu == Unlock(id)) && GoodNext(w.pdus, pdu)
    requires pdu == Unlock(id) ==> !(w.active && id == w.lockId)
    ensures var r := Send(w, pdu);
            && Good(r.pdus)
            && (forall i :: Lock(i) in r.pdus <==> Lock(i) in w.pdus || pdu == Lock(i))
            && (forall i :: Unlock(i) in r.pdus <==> Unlock(i) in w.pdus || pdu == Unlock(i))
  {
    hide Good, GoodNext;
    GoodAppend(w.pdus, pdu);
  }

  lemma EventThreadKeeps(w: World)
    requires Inv(w) && !w.events.Idle?
    ensures Inv(Next(w, EventThreadGoesOn, _ => true))
  {
    hide Good;
    match w.events
    case UnlockOld(previous, upcoming) => PduKeeps(w, previous, Unlock(previous));
    case LockNew(upcoming) => PduKeeps(w, upcoming, Lock(upcoming));
    case UnlockDone(id) => PduKeeps(w, id, Unlock(id));
  }

  lemma CommandThreadKeeps(w: World)
    requires Inv(w) && !w.commands.Ready?
    ensures Inv(Next(w, CommandThreadGoesOn, _ => true))
  {
    hide Good;
    PduKeeps(w, w.commands.id, Unlock(w.commands.id));
  }

  lemma StepKeeps(w: World, step: Step, net: D.Network)
    requires Inv(w) && Enabled(w, step)
    ensures Inv(Next(w, step, net))
  {
    hide Good, D.OnReply, D.RequestDownload, Release;
    match step
    case Reply(reply, disk) => ReleaseKeeps(w, D.OnReply(w.d, reply, disk, net));
    case Download =>
      if w.events.UnlockOld? || w.events.LockNew? { NothingToAsk(w, net); }
      ReleaseKeeps(w, D.RequestDownload(w.d, net));
    case EventThreadGoesOn => EventThreadKeeps(w);
    case CommandThreadGoesOn => CommandThreadKeeps(w);
    case _ =>
  }

  // ----- runs

  function Run(w: World, steps: seq<(Step, D.Network)>): (r: World)
    decreases |steps|
  {
    if steps == [] then w else Run(Next(w, steps[0].0, steps[0].1), steps[1..])
  }

  predicate Possible(w: World, steps: seq<(Step, D.Network)>)
    decreases |steps|
  {
    steps == [] || (Enabled(w, steps[0].0) && Possible(Next(w, steps[0].0, steps[0].1), steps[1..]))
  }

  lemma {:induction false} RunKeeps(w: World, steps: seq<(Step, D.Network)>)
    requires Inv(w) && Possible(w, steps)
    ensures Inv(Run(w, steps))
    decreases |steps|
  {
    hide Inv, Next, Enabled;
    if steps != [] {
      StepKeeps(w, steps[0].0, steps[0].1);
      RunKeeps(Next(w, steps[0].0, steps[0].1), steps[1..]);
    }
  }

  /** However the two threads interleave, each request names no lock or one that is held. */
  lemma RequestsNameHeldLocks(steps: seq<(Step, D.Network)>, k: nat, id: nat)
    requires Possible(START, steps)
    requires k < |Run(START, steps).pdus| && Run(START, steps).pdus[k].FileRequest?
    requires Run(START, steps).pdus[k].lock == Some(id)
    ensures var before := Run(START, steps).pdus[..k]; Lock(id) in before && Unlock(id) !in before
  {
    hide Next, Run, Possible;
    InvAtStart();
    RunKeeps(START, steps);
    var pdus := Run(START, steps).pdus;
    assert GoodNext(pdus[..k], pdus[k]);
  }

  /** And no lock is given back twice, or before it was taken. */
  lemma LocksAreReleasedOnce(steps: seq<(Step, D.Network)>, j: nat, k: nat, id: nat)
    requires Possible(START, steps)
    requires j < |Run(START, steps).pdus| && k < |Run(START, steps).pdus|
    requires Run(START, steps).pdus[j] == Run(START, steps).pdus[k] == Unlock(id)
    ensures j == k && Lock(id) in Run(START, steps).pdus[..k]
  {
    hide Next, Run, Possible;
    InvAtStart();
    RunKeeps(START, steps);
    var pdus := Run(START, steps).pdus;
    EarlierIsIn(pdus, j, k);
    EarlierIsIn(pdus, k, j);
    assert GoodNext(pdus[..k], pdus[k]) && GoodNext(pdus[..j], pdus[j]);
  }

  lemma EarlierIsIn(pdus: seq<Pdu>, j: nat, k: nat)
    requires k <= |pdus|
    ensures j < k ==> pdus[j] in pdus[..k]
  {
    if j < k { assert pdus[..k][j] == pdus[j]; }
  }

  // ----- the lock a request carries, told from the steps alone

  type History = seq<(Step, D.Network)>

  /** How often the server has offered files. */
  function Offers(steps: History): (n: nat) {
    if steps == [] then 0
    else Offers(steps[..|steps| - 1]) + if steps[|steps| - 1].0.HasFiles? then 1 else 0
  }

  /** The queue of downloads by itself. */
  function Queue(steps: History): (d: D.State) {
    if steps == [] then D.INITIAL
    else
      var d, (last, net) := Queue(steps[..|steps| - 1]), steps[|steps| - 1];
      match last
      case HasFiles => D.HasFiles(d)
      case FormatData(answer) => D.OnFormatData(d, answer)
      case Reply(reply, disk) => D.OnReply(d, reply, disk, net).state
      case ChannelUp => D.Connect(d)
      case ChannelDown => D.Disconnect(d)
      case Download => D.RequestDownload(d, net).state
      case _ => d
  }

  /** What the queue does in a step, if it is one that moves it on. */
  function Outcome(d: D.State, step: Step, net: D.Network): (o: D.Outcome) {
    match step
    case Reply(reply, disk) => D.OnReply(d, reply, disk, net)
    case Download => D.RequestDownload(d, net)
    case _ => D.Quiet(d)
  }

  /** A queue ends in this step, on a connected channel: it was being fetched, or is begun, and is not any more. */
  predicate EndsQueue(d: D.State, step: Step, net: D.Network) {
    d.connected && !Outcome(d, step, net).state.downloading
    && ((step.Reply? && d.downloading) || (step.Download? && d.directories != []))
  }

  lemma EndsQueueIs(d: D.State, step: Step, net: D.Network)
    ensures EndsQueue(d, step, net) <==> Outcome(d, step, net).finished && Outcome(d, step, net).state.connected
  {
    hide D.OnReply, D.RequestDownload;
    match step
    case Reply(reply, disk) => D.FinishedMeans(d, reply, disk, net);
    case Download => D.FinishedMeans(d, D.Reply(0, false, []), D.Disk(false, 0, false, 0), net);
    case _ =>
  }

  /**
   * The lock of the latest offer, the first being 100, unless since then a queue has ended on a
   * connected channel or the channel was lost.
   */
  function HeldLock(steps: History): (r: Option<nat>) {
    if steps == [] then None
    else
      var before, (last, net) := steps[..|steps| - 1], steps[|steps| - 1];
      if last.HasFiles? then Some(100 + Offers(before))
      else if last.ChannelDown? || EndsQueue(Queue(before), last, net) then None
      else HeldLock(before)
  }

  lemma {:induction false} RunAppend(w: World, steps: History, step: (Step, D.Network))
    ensures Run(w, steps + [step]) == Next(Run(w, steps), step.0, step.1)
    decreases |steps|
  {
    hide Next;
    if steps == [] {
      assert steps + [step] == [step] && [step][1..] == [];
    } else {
      assert (steps + [step])[1..] == steps[1..] + [step];
      RunAppend(Next(w, steps[0].0, steps[0].1), steps[1..], step);
    }
  }

  lemma {:induction false} Tracks(steps: History)
    ensures var w := Run(START, steps);
            && w.d == Queue(steps) && w.nextLock == 100 + Offers(steps)
            && HeldLock(steps) == if w.active then Some(w.lockId) else None
  {
    hide D.OnReply, D.RequestDownload, D.OnFormatData, D.HasFiles, Run, EndsQueue;
    if steps == [] {
      NoSteps();
    } else {
      var before, last := steps[..|steps| - 1], steps[|steps| - 1];
      EndsQueueIs(Queue(before), last.0, last.1);
      assert steps == before + [last];
      Tracks(before);
      RunAppend(START, before, last);
    }
  }

  lemma NoSteps()
    ensures Run(START, []) == START
  {}

  /** The PDUs a thread has yet to send, in order. */
  function EventsDue(w: World): (r: seq<Pdu>) {
    match w.events
    case Idle => []
    case UnlockOld(previous, upcoming) => [Unlock(previous), Lock(upcoming)]
    case LockNew(upcoming) => [Lock(upcoming)]
    case UnlockDone(id) => [Unlock(id)]
  }

  function CommandsDue(w: World): (r: seq<Pdu>) {
    match w.commands
    case Ready => []
    case UnlockAfter(id) => [Unlock(id)]
  }

  function UnlockHeld(held: Option<nat>): (r: seq<Pdu>) {
    if held.Some? then [Unlock(held.value)] else []
  }

  /** The request the queue asks for in a step, under a lock or without one. */
  function Asked(o: D.Outcome, held: Option<nat>): (r: seq<Pdu>) {
    if o.request.Some? then [FileRequest(o.request.value, held)] else []
  }

  /**
   * Every PDU of every run. A request goes out as the queue asks for it, with the lock of the latest
   * offer exactly as long as that is held. An offer makes the event thread give back the lock held
   * so far and take the next one; the end of a queue makes the thread it happens on give back the
   * lock. What is due goes out in order, one PDU a step.
   */
  lemma StepSends(steps: History, step: Step, net: D.Network)
    requires Possible(START, steps) && Enabled(Run(START, steps), step)
    ensures var w, r, held := Run(START, steps), Run(START, steps + [(step, net)]), HeldLock(steps);
            var o := Outcome(Queue(steps), step, net);
            var freed := if EndsQueue(Queue(steps), step, net) then UnlockHeld(held) else [];
            match step
            case HasFiles =>
              r.pdus == w.pdus && EventsDue(r) == UnlockHeld(held) + [Lock(100 + Offers(steps))]
              && CommandsDue(r) == CommandsDue(w)
            case Reply(_, _) =>
              r.pdus == w.pdus + Asked(o, held) && EventsDue(r) == freed && CommandsDue(r) == CommandsDue(w)
            case Download =>
              r.pdus == w.pdus + Asked(o, held) && EventsDue(r) == EventsDue(w) && CommandsDue(r) == freed
            case EventThreadGoesOn =>
              EventsDue(w) != [] && r.pdus == w.pdus + EventsDue(w)[..1] && EventsDue(r) == EventsDue(w)[1..]
              && CommandsDue(r) == CommandsDue(w)
            case CommandThreadGoesOn =>
              CommandsDue(w) != [] && r.pdus == w.pdus + CommandsDue(w)[..1] && CommandsDue(r) == CommandsDue(w)[1..]
              && EventsDue(r) == EventsDue(w)
            case _ => r.pdus == w.pdus && EventsDue(r) == EventsDue(w) && CommandsDue(r) == CommandsDue(w)
  {
    hide D.OnReply, D.RequestDownload, D.OnFormatData, D.HasFiles, Run, Queue, Offers, HeldLock, Possible, EndsQueue;
    EndsQueueIs(Queue(steps), step, net);
    Tracks(steps);
    RunAppend(START, steps, (step, net));
  }

  /** So each request of a run carries the lock that was held when it was sent. */
  lemma {:induction false} RequestsCarryTheLock(steps: History, k: nat) returns (i: nat)
    requires Possible(START, steps)
    requires k < |Run(START, steps).pdus| && Run(START, steps).pdus[k].FileRequest?
    ensures i < |steps| && |Run(START, steps[..i]).pdus| == k
    ensures Run(START, steps).pdus[k].lock == HeldLock(steps[..i])
  {
    hide Run, HeldLock, Queue, Offers, Outcome, EndsQueue, Enabled, Possible;
    if steps == [] {
      NoSteps();
    } else {
      var before, last := steps[..|steps| - 1], steps[|steps| - 1];
      assert steps == before + [last];
      PossibleBefore(START, before, last);
      StepSends(before, last.0, last.1);
      if k < |Run(START, before).pdus| {
        i := RequestsCarryTheLock(before, k);
        assert before[..i] == steps[..i];
      } else {
        i := |before|;
      }
    }
  }

  lemma {:induction false} PossibleBefore(w: World, steps: History, step: (Step, D.Network))
    requires Possible(w, steps + [step])
    ensures Possible(w, steps) && Enabled(Run(w, steps), step.0)
    decreases |steps|
  {
    hide Next, Enabled;
    if steps == [] {
      assert (steps + [step])[0] == step;
    } else {
      assert (steps + [step])[1..] == steps[1..] + [step];
      PossibleBefore(Next(w, steps[0].0, steps[0].1), steps[1..], step);
    }
  }
}
