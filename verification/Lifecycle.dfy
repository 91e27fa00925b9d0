/**
 * session.rs: sessions and their workers under every interleaving of opening, closing and
 * shutting down. What a thread does under one lock is one step. A session starts at most one
 * worker, so worker and session share a number.
 */
module Lifecycle {
  /** The thread in SessionManager::open, for one session. */
  datatype Opener =
    | New                     // before the registry's lock
    | Refused                 // the manager was closed
    | Registered              // before WorkerProcess::spawn
    | Spawned                 // with a worker, before the slot's lock
    | Checked                 // with the slot's lock, not yet stored
    | Stored                  // sending and waiting
    | Failing                 // connect returned an error
    | Failed                  // unregistered; its shutdown is among the others
    | Opened

  /** A thread in Session::shutdown. */
  datatype Shutter = ToStop | ToTake | ToReap(holds: bool) | Finished

  /** `reaped`: the worker was shut down; `taken`: some shutdown has emptied the slot. */
  datatype Session = Session(
    opener: Opener,
    disconnected: bool,
    slot: bool,
    spawned: bool,
    reaped: bool,
    taken: bool,
    shutters: seq<Shutter>
  )

  const FRESH := Session(New, false, false, false, false, false, [])

  datatype World = World(closed: bool, registered: set<nat>, sessions: seq<Session>)

  const START := World(false, {}, [])

  datatype Step =
    | Open
    | Register(i: nat)
    | Spawn(i: nat, ok: bool)
    | Check(i: nat)
    | Store(i: nat)
    | Wait(i: nat, ok: bool)
    | Unregister(i: nat)
    | Close(i: nat)
    | ShutDownManager
    | Stop(i: nat, k: nat)
    | Take(i: nat, k: nat)
    | Reap(i: nat, k: nat)
    | LoseWorker(i: nat)      // the worker ends, or a command cannot be sent

  predicate IsSession(w: World, i: nat) {
    i < |w.sessions|
  }

  predicate IsShutter(w: World, i: nat, k: nat) {
    i < |w.sessions| && k < |w.sessions[i].shutters|
  }

  predicate Enabled(w: World, step: Step) {
    match step
    case Open => true
    case Register(i) => IsSession(w, i) && w.sessions[i].opener == New
    case Spawn(i, _) => IsSession(w, i) && w.sessions[i].opener == Registered
    case Check(i) => IsSession(w, i) && w.sessions[i].opener == Spawned
    case Store(i) => IsSession(w, i) && w.sessions[i].opener == Checked
    case Wait(i, _) => IsSession(w, i) && w.sessions[i].opener == Stored
    case Unregister(i) => IsSession(w, i) && w.sessions[i].opener == Failing
    case Close(i) => IsSession(w, i) && i in w.registered
    case ShutDownManager => true
    case Stop(i, k) => IsShutter(w, i, k) && w.sessions[i].shutters[k] == ToStop
    case Take(i, k) => IsShutter(w, i, k) && w.sessions[i].shutters[k] == ToTake && w.sessions[i].opener != Checked
    case Reap(i, k) => IsShutter(w, i, k) && w.sessions[i].shutters[k].ToReap?
    case LoseWorker(i) => IsSession(w, i) && w.sessions[i].spawned
  }

  function Put(w: World, i: nat, s: Session): (r: World)
    requires i < |w.sessions|
  {
    w.(sessions := w.sessions[i := s])
  }

  function AddShutter(s: Session): (r: Session) {
    s.(shutters := s.shutters + [ToStop])
  }

  function Next(w: World, step: Step): (r: World)
    requires Enabled(w, step)
  {
    match step
    case Open => w.(sessions := w.sessions + [FRESH])
    case Register(i) =>
      if w.closed then Put(w, i, w.sessions[i].(opener := Refused))
      else Put(w, i, w.sessions[i].(opener := Registered)).(registered := w.registered + {i})
    case Spawn(i, ok) =>
      if ok then Put(w, i, w.sessions[i].(opener := Spawned, spawned := true))
      else Put(w, i, w.sessions[i].(opener := Failing))
    case Check(i) =>
      if w.sessions[i].disconnected then Put(w, i, w.sessions[i].(opener := Failing, reaped := true))
      else Put(w, i, w.sessions[i].(opener := Checked))
    case Store(i) => Put(w, i, w.sessions[i].(opener := Stored, slot := true))
    case Wait(i, ok) => Put(w, i, w.sessions[i].(opener := if ok then Opened else Failing))
    case Unregister(i) => Put(w, i, AddShutter(w.sessions[i].(opener := Failed))).(registered := w.registered - {i})
    case Close(i) => Put(w, i, AddShutter(w.sessions[i])).(registered := w.registered - {i})
    case ShutDownManager => World(true, {}, ShutAll(w.registered, w.sessions, 0))
    case Stop(i, k) =>
      var s := w.sessions[i];
      Put(w, i, s.(disconnected := true, shutters := s.shutters[k := ToTake]))
    case Take(i, k) =>
      var s := w.sessions[i];
      Put(w, i, s.(slot := false, taken := true, shutters := s.shutters[k := ToReap(s.slot)]))
    case Reap(i, k) =>
      var s := w.sessions[i];
      Put(w, i, s.(reaped := s.reaped || s.shutters[k].holds, shutters := s.shutters[k := Finished]))
    case LoseWorker(i) => Put(w, i, w.sessions[i].(disconnected := true))
  }

  /** Every registered session from number `first` on gets a thread that shuts it down. */
  function ShutAll(registered: set<nat>, sessions: seq<Session>, first: nat): (r: seq<Session>)
    requires first <= |sessions|
    ensures |r| == |sessions|
    ensures forall i :: 0 <= i < |sessions| ==>
              r[i] == if i >= first && i in registered then AddShutter(sessions[i]) else sessions[i]
    decreases |sessions| - first
  {
    if first == |sessions| then sessions
    else
      var rest := ShutAll(registered, sessions, first + 1);
      if first in registered then rest[first := AddShutter(sessions[first])] else rest
  }

  // ----- the invariant

  /** Someone answers for a worker: it was reaped, or it is in the slot, or a thread holds it. */
  ghost predicate InCustody(s: Session) {
    s.reaped || s.slot || s.opener == Spawned || s.opener == Checked || Held(s)
  }

  ghost predicate Held(s: Session) {
    exists k :: 0 <= k < |s.shutters| && s.shutters[k] == ToReap(true)
  }

  /** Some thread will still come to take the slot. */
  ghost predicate WillTake(s: Session) {
    exists k :: 0 <= k < |s.shutters| && (s.shutters[k] == ToStop || s.shutters[k] == ToTake)
  }

  predicate BeforeSpawn(o: Opener) {
    o == New || o == Refused || o == Registered
  }

  /** A shutdown past its first step left the session disconnected, past its second the slot empty. */
  predicate SoundShutter(s: Session, shutter: Shutter) {
    match shutter
    case ToStop => true
    case ToTake => s.disconnected
    case Finished => s.taken
    case ToReap(holds) => s.taken && (holds ==> !BeforeSpawn(s.opener) && s.opener != Spawned)
  }

  ghost predicate Sound(s: Session) {
    && (s.spawned ==> InCustody(s))
    && (s.slot ==> s.spawned && !s.reaped && !s.taken)
    && (s.taken ==> s.disconnected && !s.slot && s.opener != Checked)
    && (BeforeSpawn(s.opener) ==> !s.spawned && !s.slot && !s.reaped)
    && (s.opener == Spawned || s.opener == Checked ==> s.spawned && !s.slot && !s.reaped)
    && (forall k :: 0 <= k < |s.shutters| ==> SoundShutter(s, s.shutters[k]))
  }

  /** An unregistered session is shut down, is about to be, or never was more than a plan. */
  ghost predicate Attended(s: Session, registered: bool) {
    registered || s.opener == New || s.opener == Refused || s.opener == Failing || s.taken || WillTake(s)
  }

  ghost predicate Inv(w: World) {
    && (w.closed ==> w.registered == {})
    && (forall i :: i in w.registered ==> i < |w.sessions|)
    && (forall i :: 0 <= i < |w.sessions| ==> Sound(w.sessions[i]) && Attended(w.sessions[i], i in w.registered))
  }

  lemma AddShutterKeeps(s: Session)
    requires Sound(s)
    ensures Sound(AddShutter(s)) && WillTake(AddShutter(s))
  {
    var r := AddShutter(s);
    assert r.shutters[|s.shutters|] == ToStop;
    if Held(s) {
      var k :| 0 <= k < |s.shutters| && s.shutters[k] == ToReap(true);
      assert r.shutters[k] == ToReap(true);
    }
  }

  lemma StopKeeps(s: Session, k: nat, registered: bool)
    requires Sound(s) && k < |s.shutters| && s.shutters[k] == ToStop
    ensures var r := s.(disconnected := true, shutters := s.shutters[k := ToTake]);
            Sound(r) && Attended(r, registered)
  {
    var r := s.(disconnected := true, shutters := s.shutters[k := ToTake]);
    assert r.shutters[k] == ToTake;
    if Held(s) {
      var j :| 0 <= j < |s.shutters| && s.shutters[j] == ToReap(true);
      assert r.shutters[j] == ToReap(true);
    }
  }

  lemma TakeKeeps(s: Session, k: nat, registered: bool)
    requires Sound(s) && k < |s.shutters| && s.shutters[k] == ToTake && s.opener != Checked
    ensures var r := s.(slot := false, taken := true, shutters := s.shutters[k := ToReap(s.slot)]);
            Sound(r) && Attended(r, registered)
  {
    var r := s.(slot := false, taken := true, shutters := s.shutters[k := ToReap(s.slot)]);
    assert r.shutters[k] == ToReap(s.slot);
    if Held(s) {
      var j :| 0 <= j < |s.shutters| && s.shutters[j] == ToReap(true);
      assert r.shutters[j] == ToReap(true);
    }
  }

  lemma ReapKeeps(s: Session, k: nat, registered: bool)
    requires Sound(s) && Attended(s, registered) && k < |s.shutters| && s.shutters[k].ToReap?
    ensures var r := s.(reaped := s.reaped || s.shutters[k].holds, shutters := s.shutters[k := Finished]);
            Sound(r) && Attended(r, registered)
  {
    var r := s.(reaped := s.reaped || s.shutters[k].holds, shutters := s.shutters[k := Finished]);
    if Held(s) && !r.reaped {
      var j :| 0 <= j < |s.shutters| && s.shutters[j] == ToReap(true);
      assert r.shutters[j] == ToReap(true);
    }
    if WillTake(s) {
      var j :| 0 <= j < |s.shutters| && (s.shutters[j] == ToStop || s.shutters[j] == ToTake);
      assert r.shutters[j] == s.shutters[j];
    }
  }

  /** What the opening thread does to its own session. */
  lemma OpenerKeeps(w: World, step: Step, i: nat)
    requires Inv(w) && Enabled(w, step) && i < |w.sessions|
    requires step == Register(i) || step == Check(i) || step == Store(i) || step == Unregister(i) || step == LoseWorker(i)
             || (step.Spawn? && step.i == i) || (step.Wait? && step.i == i)
    ensures Inv(Next(w, step))
  {
    var s, r := w.sessions[i], Next(w, step);
    var t := r.sessions[i];
    assert Sound(s) && Attended(s, i in w.registered);
    if step.Unregister? { AddShutterKeeps(s.(opener := Failed)); }
    assert Sound(t) by { SameShutters(s, t, step); }
    assert Attended(t, i in r.registered) by { StillAttended(s, t, step, i in w.registered, i in r.registered); }
  }

  lemma SameShutters(s: Session, t: Session, step: Step)
    requires Sound(s)
    requires t.shutters == s.shutters || (t == AddShutter(s.(opener := Failed)) && s.opener == Failing)
    requires t.shutters == s.shutters ==>
               || (s.opener == New && t == s.(opener := t.opener) && (t.opener == Refused || t.opener == Registered))
               || (s.opener == Registered && (t == s.(opener := Spawned, spawned := true) || t == s.(opener := Failing)))
               || (s.opener == Spawned && s.disconnected && t == s.(opener := Failing, reaped := true))
               || (s.opener == Spawned && !s.disconnected && t == s.(opener := Checked))
               || (s.opener == Checked && t == s.(opener := Stored, slot := true))
               || (s.opener == Stored && (t == s.(opener := Opened) || t == s.(opener := Failing)))
               || t == s.(disconnected := true)
    ensures Sound(t)
  {
    if t.shutters != s.shutters {
      FailedIsSound(s);
      AddShutterKeeps(s.(opener := Failed));
    } else if Held(s) {
      var k :| 0 <= k < |s.shutters| && s.shutters[k] == ToReap(true);
      assert t.shutters[k] == ToReap(true);
    }
  }

  lemma FailedIsSound(s: Session)
    requires Sound(s) && s.opener == Failing
    ensures Sound(s.(opener := Failed))
  {
    if Held(s) {
      var k :| 0 <= k < |s.shutters| && s.shutters[k] == ToReap(true);
      assert s.(opener := Failed).shutters[k] == ToReap(true);
    }
  }

  lemma StillAttended(s: Session, t: Session, step: Step, before: bool, after: bool)
    requires Attended(s, before)
    requires t.shutters == s.shutters || (t.shutters == s.shutters + [ToStop])
    requires t.taken == s.taken
    requires after || t.opener == Refused || t.opener == Failing || (t.shutters == s.shutters + [ToStop])
             || (before == after && s.opener != New && s.opener != Refused && s.opener != Failing)
             || (before == after && s.opener == t.opener)
    ensures Attended(t, after)
  {
    if t.shutters == s.shutters + [ToStop] {
      assert t.shutters[|s.shutters|] == ToStop;
    } else if WillTake(s) {
      var k :| 0 <= k < |s.shutters| && (s.shutters[k] == ToStop || s.shutters[k] == ToTake);
      assert t.shutters[k] == s.shutters[k];
    }
  }

  lemma CloseKeeps(w: World, i: nat)
    requires Inv(w) && Enabled(w, Close(i))
    ensures Inv(Next(w, Close(i)))
  {
    AddShutterKeeps(w.sessions[i]);
  }

  lemma ShutDownKeeps(w: World)
    requires Inv(w)
    ensures Inv(Next(w, ShutDownManager))
  {
    var r := Next(w, ShutDownManager);
    forall i | 0 <= i < |r.sessions| ensures Sound(r.sessions[i]) && Attended(r.sessions[i], false) {
      assert Sound(w.sessions[i]) && Attended(w.sessions[i], i in w.registered);
      AddShutterKeeps(w.sessions[i]);
    }
  }

  lemma PutKeeps(w: World, i: nat, s: Session)
    requires Inv(w) && i < |w.sessions| && Sound(s) && Attended(s, i in w.registered)
    ensures Inv(Put(w, i, s))
  {
    hide Sound, Attended;
  }

  lemma ShutterKeeps(w: World, step: Step)
    requires Inv(w) && Enabled(w, step) && (step.Stop? || step.Take? || step.Reap?)
    ensures Inv(Next(w, step))
  {
    var i := step.i;
    var s := w.sessions[i];
    assert Sound(s) && Attended(s, i in w.registered);
    hide Sound, Attended, Inv;
    match step
    case Stop(_, k) =>
      StopKeeps(s, k, i in w.registered);
      PutKeeps(w, i, Next(w, step).sessions[i]);
    case Take(_, k) =>
      TakeKeeps(s, k, i in w.registered);
      PutKeeps(w, i, Next(w, step).sessions[i]);
    case Reap(_, k) =>
      ReapKeeps(s, k, i in w.registered);
      PutKeeps(w, i, Next(w, step).sessions[i]);
  }

  /** Every step of every thread keeps the invariant. */
  lemma StepKeeps(w: World, step: Step)
    requires Inv(w) && Enabled(w, step)
    ensures Inv(Next(w, step))
  {
    match step
    case Open => assert Sound(FRESH) && Attended(FRESH, false);
    case Close(i) => CloseKeeps(w, i);
    case ShutDownManager => ShutDownKeeps(w);
    case Stop(_, _) => ShutterKeeps(w, step);
    case Take(_, _) => ShutterKeeps(w, step);
    case Reap(_, _) => ShutterKeeps(w, step);
    case _ => OpenerKeeps(w, step, step.i);
  }

  // ----- runs

  predicate Possible(w: World, steps: seq<Step>)
    decreases |steps|
  {
    steps == [] || (Enabled(w, steps[0]) && Possible(Next(w, steps[0]), steps[1..]))
  }

  function Run(w: World, steps: seq<Step>): (r: World)
    requires Possible(w, steps)
    decreases |steps|
  {
    if steps == [] then w else Run(Next(w, steps[0]), steps[1..])
  }

  lemma {:induction false} RunKeeps(w: World, steps: seq<Step>)
    requires Inv(w) && Possible(w, steps)
    ensures Inv(Run(w, steps))
    decreases |steps|
  {
    hide Inv, Next, Enabled;
    if steps != [] {
      StepKeeps(w, steps[0]);
      RunKeeps(Next(w, steps[0]), steps[1..]);
    }
  }

  /** A slot emptied by a shutdown: what is never undone. */
  predicate TakenForGood(w: World, i: nat) {
    i < |w.sessions| && w.sessions[i].taken
  }

  lemma StepKeepsTaken(w: World, step: Step, i: nat)
    requires Enabled(w, step) && TakenForGood(w, i)
    ensures TakenForGood(Next(w, step), i)
  {}

  /** Once a shutdown took a session's slot, the slot stays empty, whatever the opening thread still does. */
  lemma {:induction false} SlotStaysEmpty(w: World, steps: seq<Step>, i: nat)
    requires Inv(w) && Possible(w, steps) && TakenForGood(w, i)
    ensures i < |Run(w, steps).sessions| && !Run(w, steps).sessions[i].slot
    decreases |steps|
  {
    if steps == [] {
      assert Sound(w.sessions[i]);
    } else {
      StepKeeps(w, steps[0]);
      StepKeepsTaken(w, steps[0], i);
      SlotStaysEmpty(Next(w, steps[0]), steps[1..], i);
    }
  }

  /** A worker started only after that is dropped as soon as connect looks at the session. */
  lemma LateWorkersAreDropped(w: World, i: nat)
    requires Inv(w) && TakenForGood(w, i) && Enabled(w, Check(i))
    ensures var s := Next(w, Check(i)).sessions[i]; s.reaped && !s.slot && s.opener == Failing
  {
    assert Sound(w.sessions[i]);
  }

  /** Nothing is registered once the manager was shut down. */
  lemma {:induction false} NothingRegisteredAfterShutDown(w: World, steps: seq<Step>)
    requires Inv(w) && Possible(w, steps) && w.closed
    ensures Run(w, steps).closed && Run(w, steps).registered == {}
    decreases |steps|
  {
    if steps != [] {
      StepKeeps(w, steps[0]);
      assert Next(w, steps[0]).closed;
      NothingRegisteredAfterShutDown(Next(w, steps[0]), steps[1..]);
    }
  }

  /** No thread has anything left to do. */
  predicate Quiet(s: Session) {
    && (s.opener == Refused || s.opener == Failed || s.opener == Opened)
    && forall k :: 0 <= k < |s.shutters| ==> s.shutters[k] == Finished
  }

  /**
   * No worker is lost: when the threads of a session are through, its worker was reaped or
   * stands in the slot of a registered session, where close and shutdown find it.
   */
  lemma NoWorkerIsLost(steps: seq<Step>, i: nat)
    requires Possible(START, steps) && i < |Run(START, steps).sessions| && Quiet(Run(START, steps).sessions[i])
    ensures var w := Run(START, steps);
            w.sessions[i].spawned ==> w.sessions[i].reaped || (w.sessions[i].slot && i in w.registered)
  {
    hide Run, Possible;
    assert Inv(START);
    RunKeeps(START, steps);
    var w := Run(START, steps);
    assert Sound(w.sessions[i]) && Attended(w.sessions[i], i in w.registered);
  }

  /** After the manager was shut down and all threads are through, every worker was reaped. */
  lemma ShutDownReapsAll(steps: seq<Step>, i: nat)
    requires Possible(START, steps) && i < |Run(START, steps).sessions| && Quiet(Run(START, steps).sessions[i])
    requires Run(START, steps).closed
    ensures Run(START, steps).sessions[i].spawned ==> Run(START, steps).sessions[i].reaped
  {
    hide Run, Possible;
    assert Inv(START);
    RunKeeps(START, steps);
    NoWorkerIsLost(steps, i);
  }

  // ----- a session told from the steps alone

  predicate Disconnected(steps: seq<Step>, i: nat) {
    exists step :: step in steps && (step == LoseWorker(i) || (step.Stop? && step.i == i))
  }

  /** Registered while the manager was open, and since then not closed, given up or shut down. */
  predicate IsRegistered(steps: seq<Step>, i: nat) {
    steps != []
    && var before := steps[..|steps| - 1];
       match steps[|steps| - 1]
       case Register(j) => if j == i then ShutDownManager !in before else IsRegistered(before, i)
       case Unregister(j) => j != i && IsRegistered(before, i)
       case Close(j) => j != i && IsRegistered(before, i)
       case ShutDownManager => false
       case _ => IsRegistered(before, i)
  }

  /** The worker was stored, and no shutdown has come for it since. */
  predicate HasSlot(steps: seq<Step>, i: nat) {
    steps != []
    && var before := steps[..|steps| - 1];
       match steps[|steps| - 1]
       case Store(j) => j == i || HasSlot(before, i)
       case Take(j, _) => j != i && HasSlot(before, i)
       case _ => HasSlot(before, i)
  }

  /** connect looked at the session when it was already disconnected. */
  predicate CameTooLate(steps: seq<Step>, i: nat) {
    steps != []
    && var before := steps[..|steps| - 1];
       (steps[|steps| - 1] == Check(i) && Disconnected(before, i)) || CameTooLate(before, i)
  }

  /** The manager was shut down before the session could be registered. */
  predicate WasRefused(steps: seq<Step>, i: nat) {
    steps != []
    && var before := steps[..|steps| - 1];
       (steps[|steps| - 1] == Register(i) && ShutDownManager in before) || WasRefused(before, i)
  }

  function SessionAt(w: World, i: nat): (s: Session) {
    if i < |w.sessions| then w.sessions[i] else FRESH
  }

  /** What the steps say of a session is how it is. */
  ghost predicate Tells(s: Session, registered: bool, steps: seq<Step>, i: nat) {
    && (s.opener == Opened <==> Wait(i, true) in steps)
    && (s.opener == Failing || s.opener == Failed <==>
          Spawn(i, false) in steps || Wait(i, false) in steps || CameTooLate(steps, i))
    && (s.opener == Failed <==> Unregister(i) in steps)
    && (s.opener == Refused <==> WasRefused(steps, i))
    && (s.spawned <==> Spawn(i, true) in steps)
    && (s.disconnected <==> Disconnected(steps, i))
    && (s.slot <==> HasSlot(steps, i))
    && (registered <==> IsRegistered(steps, i))
  }

  /** How each thing said of the steps goes on with one step more. */
  lemma {:induction false} OnMore(steps: seq<Step>, step: Step, i: nat)
    ensures Disconnected(steps + [step], i) <==> Disconnected(steps, i) || step == LoseWorker(i) || (step.Stop? && step.i == i)
    ensures IsRegistered(steps + [step], i) <==>
              if step == Register(i) then ShutDownManager !in steps
              else step != Unregister(i) && step != Close(i) && step != ShutDownManager && IsRegistered(steps, i)
    ensures HasSlot(steps + [step], i) <==>
              step == Store(i) || (!(step.Take? && step.i == i) && HasSlot(steps, i))
    ensures CameTooLate(steps + [step], i) <==> (step == Check(i) && Disconnected(steps, i)) || CameTooLate(steps, i)
    ensures WasRefused(steps + [step], i) <==> (step == Register(i) && ShutDownManager in steps) || WasRefused(steps, i)
  {
    assert (steps + [step])[..|steps|] == steps;
    DisconnectedMore(steps, step, i);
    hide Disconnected;
  }

  lemma DisconnectedMore(steps: seq<Step>, step: Step, i: nat)
    ensures Disconnected(steps + [step], i) <==> Disconnected(steps, i) || step == LoseWorker(i) || (step.Stop? && step.i == i)
  {
    var more := steps + [step];
    assert more[|steps|] == step;
    assert forall x :: x in more <==> x in steps || x == step;
  }

  lemma InMore(steps: seq<Step>, step: Step, x: Step)
    ensures x in steps + [step] <==> x in steps || x == step
  {}

  /** A step that is not about a session leaves it as it is, and in the registry unless the manager shuts down. */
  predicate About(step: Step, i: nat) {
    match step
    case Open => false
    case ShutDownManager => false
    case _ => step.i == i
  }

  lemma OthersUntouched(w: World, step: Step, i: nat)
    requires Inv(w) && Enabled(w, step) && !About(step, i)
    ensures var s, r := SessionAt(w, i), SessionAt(Next(w, step), i);
            r == s || r == AddShutter(s)
    ensures i in Next(w, step).registered <==> i in w.registered && step != ShutDownManager
  {
    hide Sound, Attended;
  }

  /** What a step about a session makes of it. */
  lemma TouchedIs(w: World, step: Step, i: nat)
    requires Inv(w) && Enabled(w, step) && About(step, i)
    ensures i < |w.sessions| && i < |Next(w, step).sessions|
    ensures var s, r := w.sessions[i], Next(w, step).sessions[i];
            match step
            case Register(_) => r == s.(opener := if w.closed then Refused else Registered)
            case Spawn(_, ok) => if ok then r == s.(opener := Spawned, spawned := true) else r == s.(opener := Failing)
            case Check(_) => r == if s.disconnected then s.(opener := Failing, reaped := true) else s.(opener := Checked)
            case Store(_) => r == s.(opener := Stored, slot := true)
            case Wait(_, ok) => r == s.(opener := if ok then Opened else Failing)
            case Unregister(_) => r == AddShutter(s.(opener := Failed))
            case Close(_) => r == AddShutter(s)
            case Stop(_, _) => r == s.(disconnected := true, shutters := r.shutters)
            case Take(_, _) => r == s.(slot := false, taken := true, shutters := r.shutters)
            case Reap(_, _) => r == s.(reaped := r.reaped, shutters := r.shutters)
            case LoseWorker(_) => r == s.(disconnected := true)
            case _ => false
    ensures i in Next(w, step).registered <==>
              if step == Register(i) then !w.closed || i in w.registered
              else i in w.registered && step != Unregister(i) && step != Close(i)
    ensures Next(w, step).closed == w.closed
  {
    hide Sound, Attended;
  }

  lemma {:induction false} StepTells(w: World, steps: seq<Step>, step: Step, i: nat)
    requires Inv(w) && Enabled(w, step) && (w.closed <==> ShutDownManager in steps)
    requires Tells(SessionAt(w, i), i in w.registered, steps, i)
    ensures var r := Next(w, step);
            Tells(SessionAt(r, i), i in r.registered, steps + [step], i)
            && (r.closed <==> ShutDownManager in steps + [step])
  {
    hide Inv, Next, Tells;
    Closes(w, step);
    InMore(steps, step, ShutDownManager);
    if About(step, i) {
      TouchedIs(w, step, i);
      Unregistered(w, i);
      TouchedTells(w.sessions[i], i in w.registered, Next(w, step).sessions[i], i in Next(w, step).registered, w.closed,
        steps, step, i);
    } else {
      OthersUntouched(w, step, i);
      UntouchedTells(SessionAt(w, i), i in w.registered, SessionAt(Next(w, step), i), i in Next(w, step).registered,
        steps, step, i);
    }
  }

  lemma MoreMembers(steps: seq<Step>, step: Step, i: nat)
    ensures Wait(i, true) in steps + [step] <==> Wait(i, true) in steps || step == Wait(i, true)
    ensures Wait(i, false) in steps + [step] <==> Wait(i, false) in steps || step == Wait(i, false)
    ensures Spawn(i, true) in steps + [step] <==> Spawn(i, true) in steps || step == Spawn(i, true)
    ensures Spawn(i, false) in steps + [step] <==> Spawn(i, false) in steps || step == Spawn(i, false)
    ensures Unregister(i) in steps + [step] <==> Unregister(i) in steps || step == Unregister(i)
  {}

  lemma UntouchedTells(s: Session, registered: bool, r: Session, after: bool, steps: seq<Step>, step: Step, i: nat)
    requires Tells(s, registered, steps, i) && !About(step, i) && (r == s || r == AddShutter(s))
    requires after <==> registered && step != ShutDownManager
    ensures Tells(r, after, steps + [step], i)
  {
    hide Disconnected, IsRegistered, HasSlot, CameTooLate, WasRefused;
    OnMore(steps, step, i);
    MoreMembers(steps, step, i);
  }

  lemma TouchedTells(s: Session, registered: bool, r: Session, after: bool, closed: bool, steps: seq<Step>, step: Step, i: nat)
    requires Tells(s, registered, steps, i) && About(step, i) && (closed <==> ShutDownManager in steps)
    requires closed ==> !registered
    requires match step
             case Register(_) => s.opener == New && r == s.(opener := if closed then Refused else Registered)
             case Spawn(_, ok) =>
               s.opener == Registered && if ok then r == s.(opener := Spawned, spawned := true) else r == s.(opener := Failing)
             case Check(_) =>
               s.opener == Spawned
               && r == if s.disconnected then s.(opener := Failing, reaped := true) else s.(opener := Checked)
             case Store(_) => s.opener == Checked && r == s.(opener := Stored, slot := true)
             case Wait(_, ok) => s.opener == Stored && r == s.(opener := if ok then Opened else Failing)
             case Unregister(_) => s.opener == Failing && r == AddShutter(s.(opener := Failed))
             case Close(_) => r == AddShutter(s)
             case Stop(_, _) => r == s.(disconnected := true, shutters := r.shutters)
             case Take(_, _) => r == s.(slot := false, taken := true, shutters := r.shutters)
             case Reap(_, _) => r == s.(reaped := r.reaped, shutters := r.shutters)
             case LoseWorker(_) => r == s.(disconnected := true)
             case _ => false
    requires after <==> if step == Register(i) then !closed || registered
                        else registered && step != Unregister(i) && step != Close(i)
    ensures Tells(r, after, steps + [step], i)
  {
    hide Disconnected, IsRegistered, HasSlot, CameTooLate, WasRefused;
    OnMore(steps, step, i);
    MoreMembers(steps, step, i);
  }

  lemma Closes(w: World, step: Step)
    requires Enabled(w, step)
    ensures Next(w, step).closed <==> w.closed || step == ShutDownManager
  {}

  lemma Unregistered(w: World, i: nat)
    requires Inv(w)
    ensures w.closed ==> i !in w.registered
  {}

  lemma {:induction false} OneMore(w: World, steps: seq<Step>, step: Step)
    requires Possible(w, steps + [step])
    ensures Possible(w, steps) && Enabled(Run(w, steps), step)
    ensures Run(w, steps + [step]) == Next(Run(w, steps), step)
    decreases |steps|
  {
    hide Next, Enabled;
    if steps == [] {
      assert steps + [step] == [step] && [step][1..] == [];
      assert Run(Next(w, step), []) == Next(w, step);
    } else {
      assert (steps + [step])[1..] == steps[1..] + [step];
      OneMore(Next(w, steps[0]), steps[1..], step);
    }
  }

  /**
   * Over every run: a session is opened exactly when connect was answered well, and has failed exactly
   * when there was no worker, no good answer or a session already lost; its slot is filled from storing
   * the worker until a shutdown takes it; it is registered from its registration with an open manager
   * until it is closed, given up or shut down.
   */
  lemma {:induction false} StepsTell(steps: seq<Step>, i: nat)
    requires Possible(START, steps)
    ensures var w := Run(START, steps);
            Tells(SessionAt(w, i), i in w.registered, steps, i) && (w.closed <==> ShutDownManager in steps)
  {
    hide Tells, Next, Enabled, Run, Possible;
    if steps == [] {
      NoStepsTell(i);
    } else {
      var before, last := steps[..|steps| - 1], steps[|steps| - 1];
      assert steps == before + [last];
      OneMore(START, before, last);
      StepsTell(before, i);
      assert Inv(START);
      RunKeeps(START, before);
      StepTells(Run(START, before), before, last, i);
    }
  }

  lemma NoStepsTell(i: nat)
    ensures Possible(START, []) && Run(START, []) == START && Tells(FRESH, false, [], i)
  {}

  lemma RunOne(w: World, step: Step, rest: seq<Step>)
    requires Enabled(w, step) && Possible(Next(w, step), rest)
    ensures Possible(w, [step] + rest) && Run(w, [step] + rest) == Run(Next(w, step), rest)
  {
    assert ([step] + rest)[1..] == rest;
  }

  /** An open that nothing disturbs: every step is possible, and the session ends opened, with its worker, registered. */
  lemma OpenSucceeds(w: World)
    requires !w.closed
    ensures var i := |w.sessions|;
            var steps := [Open] + ([Register(i)] + ([Spawn(i, true)] + ([Check(i)] + ([Store(i)] + ([Wait(i, true)] + [])))));
            && Possible(w, steps)
            && var r := Run(w, steps);
               && r.sessions == w.sessions + [FRESH.(opener := Opened, slot := true, spawned := true)]
               && r.registered == w.registered + {i} && !r.closed
  {
    hide Possible, Run;
    var i := |w.sessions|;
    var reg := w.registered + {i};
    var s1, s2 := FRESH.(opener := Registered), FRESH.(opener := Spawned, spawned := true);
    var s3 := s2.(opener := Checked);
    var s4, s5 := s3.(opener := Stored, slot := true), s3.(opener := Opened, slot := true);
    var a, b, c := WithLast(w, w.registered, FRESH), WithLast(w, reg, s1), WithLast(w, reg, s2);
    var d, e, f := WithLast(w, reg, s3), WithLast(w, reg, s4), WithLast(w, reg, s5);
    LastIs(w, FRESH, s1);
    LastIs(w, s1, s2);
    LastIs(w, s2, s3);
    LastIs(w, s3, s4);
    LastIs(w, s4, s5);
    NothingMore(f);
    RunOne(e, Wait(i, true), []);
    RunOne(d, Store(i), [Wait(i, true)] + []);
    RunOne(c, Check(i), [Store(i)] + ([Wait(i, true)] + []));
    RunOne(b, Spawn(i, true), [Check(i)] + ([Store(i)] + ([Wait(i, true)] + [])));
    RunOne(a, Register(i), [Spawn(i, true)] + ([Check(i)] + ([Store(i)] + ([Wait(i, true)] + []))));
    RunOne(w, Open, [Register(i)] + ([Spawn(i, true)] + ([Check(i)] + ([Store(i)] + ([Wait(i, true)] + [])))));
  }

  function WithLast(w: World, registered: set<nat>, s: Session): (r: World) {
    World(false, registered, w.sessions + [s])
  }

  lemma LastIs(w: World, s: Session, t: Session)
    ensures (w.sessions + [s])[|w.sessions|] == s
    ensures (w.sessions + [s])[|w.sessions| := t] == w.sessions + [t]
  {}

  lemma NothingMore(w: World)
    ensures Possible(w, []) && Run(w, []) == w
  {}
}
