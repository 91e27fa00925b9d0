/** How far the download queue gets: what brings it on, what stops it, and that it comes through. */
module DownloadProgress {
  import opened Bytes
  import opened Downloads
  import opened DownloadRuns

  // ----- the measure

  function FilesLeft(s: State): (r: nat) {
    if s.current < |s.downloads| then |s.downloads| - s.current else 0
  }

  function SizesLeft(s: State): (r: nat) {
    if s.current < |s.downloads| && !s.downloads[s.current].sized then 1 else 0
  }

  function BytesLeft(s: State): (r: nat) {
    if s.current < |s.downloads| && s.downloads[s.current].received < s.downloads[s.current].total
    then s.downloads[s.current].total - s.downloads[s.current].received
    else 0
  }

  /** `t` is nearer to the end of the queue than `s`: fewer files, then a known size, then fewer bytes. */
  predicate Closer(s: State, t: State) {
    FilesLeft(t) < FilesLeft(s)
    || (FilesLeft(t) == FilesLeft(s) && SizesLeft(t) < SizesLeft(s))
    || (FilesLeft(t) == FilesLeft(s) && SizesLeft(t) == SizesLeft(s) && BytesLeft(t) < BytesLeft(s))
  }

  /** The queue only moves forward, and its current file keeps what it has. */
  predicate Forward(s: State, t: State) {
    && |t.downloads| == |s.downloads| && t.current >= s.current
    && (t.current == s.current < |s.downloads| ==>
          var e, f := s.downloads[s.current], t.downloads[s.current];
          f.sized == e.sized && f.total == e.total && f.received == e.received)
  }

  lemma {:induction false} StartNextMovesForward(s: State, net: Network)
    ensures Forward(s, StartNext(s, net).state)
    ensures forall o :: o in StartNext(s, net).output ==> o.index >= s.current
    decreases |s.downloads| - s.current
  {
    hide FirstLength;
    if s.current < |s.downloads| {
      var e := s.downloads[s.current];
      if e.complete {
        StartNextMovesForward(s.(current := s.current + 1), net);
      } else if s.current < |s.directories| && s.directories[s.current] {
        StartNextMovesForward(CompleteCurrent(s), net);
      } else if !e.sized {
        var next := Send(s, s.current, true, 0, 8, net).0;
        StartNextMovesForward(CompleteCurrent(next), net);
      }
    }
  }

  /** A failure, a size, or some bytes that the disk takes some of. */
  predicate Useful(w: World, reply: Reply, disk: Disk)
    requires reply.streamId in w.pending
  {
    !reply.ok || w.pending[reply.streamId].request.sizes || (reply.data != [] && disk.takes > 0)
  }

  /** Neither the file list, nor whether one is awaited, nor the channel. */
  predicate SameSurroundings(s: State, t: State) {
    t.directories == s.directories && t.listAwaited == s.listAwaited && t.connected == s.connected
  }

  lemma {:induction false} StartNextKeepsList(s: State, net: Network)
    ensures SameSurroundings(s, StartNext(s, net).state)
    decreases |s.downloads| - s.current
  {
    hide FirstLength;
    if s.current < |s.downloads| {
      var e := s.downloads[s.current];
      if e.complete {
        StartNextKeepsList(s.(current := s.current + 1), net);
      } else if s.current < |s.directories| && s.directories[s.current] {
        StartNextKeepsList(CompleteCurrent(s), net);
      } else if !e.sized {
        StartNextKeepsList(CompleteCurrent(Send(s, s.current, true, 0, 8, net).0), net);
      }
    }
  }

  /** No answer changes the file list. */
  lemma AnswersKeepList(s: State, reply: Reply, disk: Disk, net: Network)
    ensures SameSurroundings(s, OnReply(s, reply, disk, net).state)
  {
    hide StartNext, SizeOf;
    forall t: State ensures SameSurroundings(t, StartNext(t, net).state) {
      StartNextKeepsList(t, net);
    }
  }

  /** Every useful answer to a live request brings the queue closer to its end. */
  lemma UsefulAnswersAdvance(w: World, reply: Reply, disk: Disk, net: Network)
    requires Inv(w) && Enabled(w, Answer(reply, disk)) && Live(w, reply.streamId) && Useful(w, reply, disk)
    ensures Closer(w.s, OnReply(w.s, reply, disk, net).state)
  {
    hide StartNext, Inv, Truthful, Unmatched, SizeOf;
    var i := Find(w.s.downloads, reply.streamId).value;
    AnswerIsForCurrent(w, reply.streamId, i);
    if !reply.ok {
      StartNextMovesForward(CompleteCurrent(w.s), net);
    } else if !w.s.downloads[i].sized {
      var e := w.s.downloads[i].(total := SizeOf(reply.data), sized := true);
      var t := Put(w.s, i, e);
      StartNextMovesForward(CompleteCurrent(t), net);
      StartNextMovesForward(CompleteCurrent(Put(t, i, e.(temp := if disk.opens then Closed([]) else Absent))), net);
      StartNextMovesForward(Put(t, i, e.(temp := Open)), net);
    } else {
      RangeAnswerAdvances(w.s, reply.data, disk, net);
    }
  }

  lemma RangeAnswerAdvances(s: State, data: bytes, disk: Disk, net: Network)
    requires s.current < |s.downloads| && s.downloads[s.current].sized && s.downloads[s.current].temp.Open?
    requires s.downloads[s.current].received < s.downloads[s.current].total && data != [] && disk.takes > 0
    ensures Closer(s, OnRange(s, s.current, data, disk, net).state)
  {
    hide StartNext;
    var i := s.current;
    var e := s.downloads[i];
    var n := Min(disk.takes, |data|);
    var f := e.(received := e.received + n, file := e.file + data[..n]);
    var t := Put(s, i, f);
    if f.received >= e.total {
      StartNextMovesForward(CompleteCurrent(Put(t, i, f.(temp := Closed(Flushed(f.file, disk))))), net);
    }
  }

  // ----- the first range

  /** A file whose first range is empty. */
  predicate Huge(source: bytes) {
    |source| > 0 && |source| % 0x1_0000_0000 == 0
  }

  /** The first range of a file is empty exactly when its size is a positive multiple of 4 GiB. */
  lemma FirstRangeIsEmptyExactly(w: World, reply: Reply, disk: Disk, net: Network)
    requires Inv(w) && NoWrap(w.s) && Enabled(w, Answer(reply, disk)) && Live(w, reply.streamId)
    requires reply.ok && w.pending[reply.streamId].request.sizes && disk.opens && net(w.s.nextStreamId)
    requires |w.pending[reply.streamId].source| > 0
    ensures var o := OnReply(w.s, reply, disk, net);
            && o.request.Some? && !o.request.value.sizes && o.request.value.offset == 0
            && (var low := |w.pending[reply.streamId].source| % 0x1_0000_0000;
                o.request.value.length == if low < 262144 then low else 262144)
            && (o.request.value.length == 0 <==> Huge(w.pending[reply.streamId].source))
  {
    hide Core, Unmatched, SizeBytes, SizeOf, Finish, EntryHolds, EntryPlace, Absorb, Ready;
    var i := Find(w.s.downloads, reply.streamId).value;
    AnswerIsForCurrent(w, reply.streamId, i);
    AnsweredKeepsInv(w, reply.streamId);
    var next := OpenedWorld(Answered(w, reply.streamId), reply.data, disk, net);
    CurrentEntry(next);
  }

  /** An empty range request stops the queue: its answer changes nothing, and no other can be taken. */
  lemma EmptyRequestStops(w: World, reply: Reply, disk: Disk, net: Network)
    requires Inv(w) && Enabled(w, Answer(reply, disk)) && Live(w, reply.streamId) && reply.ok
    requires !w.pending[reply.streamId].request.sizes && w.pending[reply.streamId].request.length == 0
    ensures OnReply(w.s, reply, disk, net) == Quiet(w.s)
    ensures forall id :: !Live(Answered(w, reply.streamId), id)
  {
    hide Inv, SizeBytes, Finish, OnSize, EntryPlace, EntryHolds;
    AnswerIsForCurrent(w, reply.streamId, Find(w.s.downloads, reply.streamId).value);
  }

  /** Whatever request is live asks for nothing. */
  ghost predicate AsksForNothing(w: World) {
    forall id :: Live(w, id) ==> !w.pending[id].request.sizes && w.pending[id].request.length == 0
  }

  predicate AllAnswers(events: seq<(Event, Network)>) {
    forall i :: 0 <= i < |events| ==> events[i].0.Answer? && events[i].0.reply.ok
  }

  /** From then on no sequence of answers, short of a failure, moves the queue. */
  lemma {:induction false} NoAnswersMoveTheQueue(w: World, events: seq<(Event, Network)>)
    requires Inv(w) && AsksForNothing(w) && Possible(w, events) && AllAnswers(events)
    ensures Run(w, events).s == w.s
    decreases |events|
  {
    hide Inv, NoWrap;
    if events != [] {
      var (e, net) := events[0];
      var next := Step(w, e, net);
      StepKeeps(w, e, net);
      AnswerMovesNothing(w, e.reply, e.disk, net);
      NoAnswersMoveTheQueue(next, events[1..]);
    }
  }

  lemma AnswerMovesNothing(w: World, reply: Reply, disk: Disk, net: Network)
    requires Inv(w) && AsksForNothing(w) && Enabled(w, Answer(reply, disk)) && reply.ok
    ensures var r := Step(w, Answer(reply, disk), net); r.s == w.s && AsksForNothing(r)
  {
    hide Inv, OnReply, Truthful;
    if Live(w, reply.streamId) {
      EmptyRequestStops(w, reply, disk, net);
    } else {
      NotLiveNotTaken(w.s, reply, disk, net);
    }
  }

  lemma NotLiveNotTaken(s: State, reply: Reply, disk: Disk, net: Network)
    requires !s.downloading || Find(s.downloads, reply.streamId).None?
    ensures OnReply(s, reply, disk, net) == Quiet(s)
  {}

  // ----- coming through

  /** No file to be fetched stops the queue. */
  ghost predicate NoneHuge(w: World) {
    forall i :: 0 <= i < |w.sources| && !IsDirectory(w, i) ==> !Huge(w.sources[i])
  }

  /** None of the files the queue is through with did. */
  ghost predicate Passed(w: World) {
    forall i :: 0 <= i < |w.sources| && i < w.s.current && !IsDirectory(w, i) ==> !Huge(w.sources[i])
  }

  ghost predicate TakesAll(net: Network, s: State) {
    forall id :: s.nextStreamId <= id ==> net(id)
  }

  predicate NoErrors(log: seq<Output>) {
    forall o :: o in log ==> !o.Error?
  }

  /** Every temp file could be opened, flushed and closed. */
  predicate NoneLost(disks: map<nat, Disk>) {
    forall i :: i in disks ==> disks[i].opens && disks[i].closes
  }

  /** The current file's request is out and asks for something. */
  ghost predicate Waits(w: World) {
    && w.s.downloading && w.s.current < |w.s.downloads| && w.s.downloads[w.s.current].streamId in w.pending
    && var r := w.pending[w.s.downloads[w.s.current].streamId].request;
       r.sizes || r.length > 0
  }

  /** It does, and is not one that stops the queue. */
  ghost predicate Going(w: World) {
    Waits(w) && (w.s.downloads[w.s.current].sized ==> w.s.current < |w.sources| && !Huge(w.sources[w.s.current]))
  }

  /** The current file's request is out and asks for nothing, because the file is huge. */
  ghost predicate Stalled(w: World) {
    && w.s.downloading && w.s.current < |w.s.downloads| && w.s.downloads[w.s.current].streamId in w.pending
    && var r := w.pending[w.s.downloads[w.s.current].streamId].request;
       !r.sizes && r.length == 0 && w.s.current < |w.sources| && Huge(w.sources[w.s.current])
  }

  /** A download to which nothing bad happened so far, but for a huge file. */
  ghost predicate OnCourse(w: World) {
    && NoErrors(w.log) && NoneLost(w.disks) && Passed(w)
    && (w.s.downloading ==> Going(w) || Stalled(w))
  }

  lemma StalledAsksForNothing(w: World)
    requires Inv(w) && Stalled(w)
    ensures AsksForNothing(w) && !NoneHuge(w)
  {
    hide Inv, Asks, EntryHolds, EntryPlace;
    var id := w.s.downloads[w.s.current].streamId;
    AnswerIsForCurrent(w, id, w.s.current);
    forall other | Live(w, other) ensures other == id {
      AnswerIsForCurrent(w, other, Find(w.s.downloads, other).value);
    }
  }

  lemma {:induction false} StartNextStaysOnCourse(w: World, net: Network)
    requires Core(w) && Ready(w) && w.s.nextStreamId + (|w.s.downloads| - w.s.current) <= MAX_STREAM_ID
    requires TakesAll(net, w.s) && NoErrors(w.log) && NoneLost(w.disks) && Passed(w)
    ensures var r := Absorb(w, StartNext(w.s, net)); OnCourse(r) && r.sources == w.sources
    decreases |w.s.downloads| - w.s.current
  {
    hide Core, Ready, EntryHolds, FirstLength, Next, Huge;
    if w.s.current >= |w.s.downloads| {
    } else {
      CurrentEntry(w);
      var e := w.s.downloads[w.s.current];
      if w.s.current < |w.s.directories| && w.s.directories[w.s.current] {
        var next := Next(w, e.(complete := true), Done(w.s.current, 0));
        GiveDirectory(w, next, net);
        NextIs(w, e.(complete := true), Done(w.s.current, 0));
        StartNextStaysOnCourse(next, net);
      } else if e.sized {
        FirstLengthOf(e, w.sources[w.s.current]);
      }
    }
  }

  lemma NextIs(w: World, e: Entry, o: Output)
    requires w.s.current < |w.s.downloads|
    ensures var r := Next(w, e, o);
            && r.log == w.log + [o] && r.sources == w.sources && r.disks == w.disks
            && r.s.nextStreamId == w.s.nextStreamId && r.s.directories == w.s.directories
            && r.s.current == w.s.current + 1
  {}

  lemma FirstLengthOf(e: Entry, source: bytes)
    requires EntryHolds(e, source) && e.sized && e.received == 0 && |source| > 0
    ensures FirstLength(e) == 0 <==> Huge(source)
  {}

  /** A fair answer: truthful, not empty for a range, and kept by the disk. */
  ghost predicate Fair(w: World, answer: (Reply, Disk))
    requires Waits(w)
  {
    && answer.0.streamId == w.s.downloads[w.s.current].streamId && answer.0.ok
    && Enabled(w, Answer(answer.0, answer.1)) && Useful(w, answer.0, answer.1)
    && answer.1.opens && answer.1.closes
  }

  lemma WaitsIsLive(w: World)
    requires Inv(w) && Waits(w)
    ensures w.s.current < |w.s.downloads|
    ensures var id := w.s.downloads[w.s.current].streamId; Live(w, id) && Find(w.s.downloads, id) == Some(w.s.current)
  {
    hide Inv;
    var id := w.s.downloads[w.s.current].streamId;
    AnswerIsForCurrent(w, id, Find(w.s.downloads, id).value);
  }

  lemma FinishStaysOnCourse(w: World, s: State, e: Entry, o: Output, net: Network)
    requires Core(w) && Unmatched(w) && w.s.downloading && w.s.current < |w.s.downloads|
    requires |w.sources| == |w.s.downloads| && !Huge(w.sources[w.s.current])
    requires e.streamId == w.s.downloads[w.s.current].streamId && !e.complete
    requires s == Put(w.s, w.s.current, e)
    requires EntryHolds(e, w.sources[w.s.current]) && FinalFor(w, e, o) && !o.Error? && !IsDirectory(w, w.s.current)
    requires w.s.nextStreamId + |w.s.downloads| <= MAX_STREAM_ID
    requires TakesAll(net, w.s) && NoErrors(w.log) && NoneLost(w.disks) && Passed(w)
    ensures var r := Absorb(w, Finish(s, w.s.current, o, net)); OnCourse(r) && r.sources == w.sources
  {
    hide Core, Unmatched, EntryHolds, FinalFor, StartNext, Ready, Finish, Absorb, OnCourse, Huge;
    var next := FinishWorld(w, s, e, o, net);
    StartNextStaysOnCourse(next, net);
  }

  lemma RangeAnswerStaysOnCourse(w: World, data: bytes, disk: Disk, net: Network, length: nat)
    requires Core(w) && Unmatched(w) && w.s.downloading && w.s.current < |w.s.downloads|
    requires w.s.downloads[w.s.current].sized && |w.sources| == |w.s.downloads| && !Huge(w.sources[w.s.current])
    requires data <= Slice(w.sources[w.s.current], w.s.downloads[w.s.current].received, length)
    requires data != [] && disk.takes > 0 && !IsDirectory(w, w.s.current)
    requires w.s.current in w.disks && w.disks[w.s.current] == disk
    requires w.s.nextStreamId + |w.s.downloads| <= MAX_STREAM_ID && w.s.connected
    requires TakesAll(net, w.s) && NoErrors(w.log) && NoneLost(w.disks) && Passed(w)
    ensures var r := Absorb(w, OnRange(w.s, w.s.current, data, disk, net)); OnCourse(r) && r.sources == w.sources
  {
    hide Core, Unmatched, StartNext, Ready, Finish, Slice, EntryHolds, Huge;
    var i := w.s.current;
    var e := w.s.downloads[i];
    var n := Min(disk.takes, |data|);
    var received := e.received + n;
    var f := e.(received := received, file := e.file + data[..n]);
    ReceivedHolds(w, data, length, n);
    var logged := w.(log := w.log + [Progress(i, received)]);
    if received >= e.total {
      var g := f.(temp := Closed(Flushed(f.file, disk)));
      ProgressKeepsCore(w, i, received);
      LogKeepsUnmatched(w, logged.log);
      assert Put(Put(w.s, i, f), i, g) == Put(logged.s, i, g) by {
        assert w.s.downloads[i := f][i := g] == w.s.downloads[i := g];
      }
      FetchedWhole(logged, i, f, disk);
      FinishStaysOnCourse(logged, Put(logged.s, i, g), g, Done(i, e.total), net);
      AbsorbAfter(w, Progress(i, received), Finish(Put(logged.s, i, g), i, Done(i, e.total), net));
    }
  }

  lemma SizeAnswerStaysOnCourse(w: World, data: bytes, disk: Disk, net: Network)
    requires Core(w) && Unmatched(w) && w.s.downloading && w.s.current < |w.s.downloads|
    requires |w.sources| == |w.s.downloads| && !w.s.downloads[w.s.current].sized
    requires data == SizeBytes(|w.sources[w.s.current]|) && disk.opens
    requires !IsDirectory(w, w.s.current) && w.s.current in w.disks && w.disks[w.s.current] == disk
    requires w.s.nextStreamId + |w.s.downloads| <= MAX_STREAM_ID
    requires TakesAll(net, w.s) && NoErrors(w.log) && NoneLost(w.disks) && Passed(w)
    ensures var r := Absorb(w, OnSize(w.s, w.s.current, data, disk, net)); OnCourse(r) && r.sources == w.sources
  {
    hide Core, Unmatched, Absorb, StartNext, Ready, Finish, SizeBytes, SizeOf, OnCourse;
    var i := w.s.current;
    UnsizedEntry(w);
    SizeRoundTrip(|w.sources[i]|);
    if |w.sources[i]| == 0 {
      var e := w.s.downloads[i].(total := 0, sized := true);
      var f := e.(temp := Closed([]));
      assert Put(Put(w.s, i, e), i, f) == Put(w.s, i, f) by {
        assert w.s.downloads[i := e][i := f] == w.s.downloads[i := f];
      }
      FinishStaysOnCourse(w, Put(w.s, i, f), f, Done(i, 0), net);
    } else {
      var next := OpenedWorld(w, data, disk, net);
      StartNextStaysOnCourse(next, net);
    }
  }

  lemma FairAnswersStayOnCourse(w: World, answer: (Reply, Disk), net: Network)
    requires Inv(w) && NoWrap(w.s) && OnCourse(w) && Going(w) && Fair(w, answer) && TakesAll(net, w.s)
    ensures var r := Step(w, Answer(answer.0, answer.1), net);
            && Inv(r) && Closer(w.s, r.s) && OnCourse(r) && r.sources == w.sources
            && r.s.directories == w.s.directories
  {
    hide Inv, Core, Unmatched, Absorb, Finish, OnRange, OnSize, Slice, SizeBytes, EntryHolds, Closer, Huge;
    var (reply, disk) := answer;
    StepKeeps(w, Answer(reply, disk), net);
    var v := Taken(w, reply.streamId, disk);
    TakenKeepsInv(w, reply.streamId, disk);
    WaitsIsLive(w);
    UsefulAnswersAdvance(w, reply, disk, net);
    AbsorbedState(v, OnReply(w.s, reply, disk, net));
    AnswersKeepList(w.s, reply, disk, net);
    var i := w.s.current;
    AnswerIsForCurrent(w, reply.streamId, i);
    InvIsCore(v);
    ConnectedNow(w);
    hide OnCourse;
    if !w.s.downloads[i].sized {
      SizeAnswerStaysOnCourse(v, reply.data, disk, net);
    } else {
      RangeAnswerStaysOnCourse(v, reply.data, disk, net, w.pending[reply.streamId].request.length);
    }
  }

  lemma AbsorbedState(w: World, o: Outcome)
    ensures Absorb(w, o).s == o.state
  {}

  lemma ConnectedNow(w: World)
    requires Inv(w) && w.s.current < |w.s.downloads|
    ensures w.s.connected
  {}

  /** What answers, given the world. */
  type Server = World -> (Reply, Disk)

  /** A server that answers fairly as long as there is something to answer. */
  ghost predicate FairServer(server: Server) {
    forall v :: Inv(v) && Waits(v) ==> Fair(v, server(v))
  }

  /** The size that was asked for, or the whole range, on a disk that keeps it. */
  ghost function FairAnswer(w: World): (r: (Reply, Disk))
    requires Waits(w)
  {
    var id := w.s.downloads[w.s.current].streamId;
    var p := w.pending[id];
    (Reply(id, true, if p.request.sizes then SizeBytes(|p.source|) else Slice(p.source, p.request.offset, p.request.length)),
     Disk(true, 1, true, 0))
  }

  lemma FairAnswerIsFair(w: World)
    requires Inv(w) && Waits(w)
    ensures Fair(w, FairAnswer(w))
  {
    hide Inv, SizeBytes, FirstLength;
    WaitsIsLive(w);
    AnswerIsForCurrent(w, w.s.downloads[w.s.current].streamId, w.s.current);
  }

  /** There is such a server. */
  lemma AFairServerExists() returns (server: Server)
    ensures FairServer(server)
  {
    hide Inv, Waits, Fair, FairAnswer;
    server := (w: World) => if Waits(w) then FairAnswer(w) else (Reply(0, false, []), Disk(false, 0, false, 0));
    forall v | Inv(v) && Waits(v) ensures Fair(v, server(v)) {
      FairAnswerIsFair(v);
    }
  }

  /** The download driven on by a server for as long as it can be, is fair and stream ids last. */
  ghost function Drive(w: World, server: Server, net: Network): (r: World)
    requires Inv(w) && OnCourse(w) && forall id :: net(id)
    decreases FilesLeft(w.s), SizesLeft(w.s), BytesLeft(w.s)
  {
    if !w.s.downloading || !NoWrap(w.s) || !Going(w) || !Fair(w, server(w)) then w
    else
      FairAnswersStayOnCourse(w, server(w), net);
      Drive(Step(w, Answer(server(w).0, server(w).1), net), server, net)
  }

  lemma FinalsWithoutErrors(log: seq<Output>, i: nat)
    requires Finals(log, i) > 0 && NoErrors(log)
    ensures exists n :: Done(i, n) in log
  {
    var last := log[|log| - 1];
    if last.Progress? || last.index != i {
      FinalsWithoutErrors(log[..|log| - 1], i);
      var n :| Done(i, n) in log[..|log| - 1];
      assert Done(i, n) in log;
    } else {
      assert Done(i, last.size) in log;
    }
  }

  /** Every file to be fetched is on the disk. */
  ghost predicate AllThere(w: World) {
    |w.s.downloads| == |w.sources|
    && forall i :: 0 <= i < |w.sources| && !IsDirectory(w, i) ==> w.s.downloads[i].temp == Closed(w.sources[i])
  }

  /**
   * Given a server that always answers fairly and a channel that takes every request, the
   * download comes to its end exactly when no file to be fetched is huge, as long as stream ids
   * last; every such file is then on the disk. Otherwise it comes to ask for nothing, and no answers but a failure move it.
   */
  lemma {:induction false} DownloadsComeThrough(w: World, server: Server, net: Network)
    requires Inv(w) && OnCourse(w) && FairServer(server) && forall id :: net(id)
    ensures var r := Drive(w, server, net);
            && Inv(r) && r.sources == w.sources && r.s.directories == w.s.directories
            && (NoWrap(r.s) ==> (!r.s.downloading <==> NoneHuge(w)))
            && (!r.s.downloading ==> AllThere(r))
            && (r.s.downloading && NoWrap(r.s) ==> AsksForNothing(r))
    decreases FilesLeft(w.s), SizesLeft(w.s), BytesLeft(w.s)
  {
    hide Inv, Waits, Fair, Step, AllThere, AsksForNothing, Huge;
    if w.s.downloading && NoWrap(w.s) && Going(w) {
      FairAnswersStayOnCourse(w, server(w), net);
      var next := Step(w, Answer(server(w).0, server(w).1), net);
      DownloadsComeThrough(next, server, net);
    } else if w.s.downloading && NoWrap(w.s) {
      StalledAsksForNothing(w);
    } else if !w.s.downloading {
      EverythingIsThere(w);
    }
  }

  lemma EverythingIsThere(w: World)
    requires Inv(w) && OnCourse(w) && !w.s.downloading
    ensures AllThere(w) && NoneHuge(w)
  {
    forall i | 0 <= i < |w.sources| && !IsDirectory(w, i) ensures w.s.downloads[i].temp == Closed(w.sources[i]) {
      assert EntryPlace(w.s, i) && EventsHold(w, i) && EntryHolds(w.s.downloads[i], w.sources[i]);
      FinalsWithoutErrors(w.log, i);
    }
  }

  /** A download that begins is on course. */
  lemma DownloadBegins(w: World, sources: seq<bytes>, net: Network)
    requires Inv(w) && NoWrap(w.s) && Enabled(w, Download(sources)) && w.s.connected && w.s.directories != []
    requires forall id :: net(id)
    ensures var b := Step(w, Download(sources), net);
            Inv(b) && OnCourse(b) && b.sources == sources && b.s.directories == w.s.directories
  {
    hide Absorb, StartNext, EntryHolds, Asks, OnCourse;
    var begun := DownloadWorld(w, sources, net);
    StepKeeps(w, Download(sources), net);
    StartNextStaysOnCourse(begun, net);
    StartNextKeepsList(begun.s, net);
    AbsorbedState(begun, StartNext(begun.s, net));
  }

  // ----- the surroundings, told from the events alone

  type History = seq<(Event, Network)>

  /** Whether the next format data are a file list: since an offer, and until an answer or a new channel. */
  predicate Awaited(events: History) {
    events != []
    && match events[|events| - 1].0
       case NewFiles => true
       case ChannelUp => false
       case ChannelDown => false
       case FormatData(answer) => answer.Empty? && Awaited(events[..|events| - 1])
       case _ => Awaited(events[..|events| - 1])
  }

  /** The file list last delivered, and none since an offer: which of its files are directories. */
  function Delivered(events: History): (r: seq<bool>) {
    if events == [] then []
    else
      var before := events[..|events| - 1];
      match events[|events| - 1].0
      case NewFiles => []
      case FormatData(answer) => if answer.Data? && Awaited(before) then answer.directories else Delivered(before)
      case _ => Delivered(before)
  }

  /** Whether there is a channel. */
  predicate HasChannel(events: History) {
    events != []
    && match events[|events| - 1].0
       case ChannelUp => true
       case ChannelDown => false
       case _ => HasChannel(events[..|events| - 1])
  }

  lemma {:induction false} OneMore(w: World, events: seq<(Event, Network)>, e: Event, net: Network)
    ensures Run(w, events + [(e, net)]) == Step(Run(w, events), e, net)
    ensures Possible(w, events + [(e, net)]) <==>
              Possible(w, events) && Enabled(Run(w, events), e) && NoWrap(Run(w, events).s)
    decreases |events|
  {
    hide Step, Enabled, NoWrap;
    var more := events + [(e, net)];
    if events == [] {
      assert more[1..] == [];
      assert Run(Step(w, e, net), []) == Step(w, e, net) && Possible(Step(w, e, net), []);
    } else {
      assert more[1..] == events[1..] + [(e, net)];
      OneMore(Step(w, events[0].0, events[0].1), events[1..], e, net);
    }
  }

  lemma NoStep()
    ensures Run(START, []) == START && Possible(START, [])
  {}

  lemma {:induction false} SurroundingsFollow(events: History)
    requires Possible(START, events)
    ensures var s := Run(START, events).s;
            s.directories == Delivered(events) && s.listAwaited == Awaited(events) && s.connected == HasChannel(events)
  {
    hide Run, Possible, Enabled, NoWrap, OnReply, RequestDownload;
    if events == [] {
      NoStep();
    } else {
      var before := events[..|events| - 1];
      var (e, net) := events[|events| - 1];
      assert events == before + [(e, net)];
      OneMore(START, before, e, net);
      SurroundingsFollow(before);
      StepFollows(Run(START, before), e, net);
    }
  }

  lemma StepFollows(w: World, e: Event, net: Network)
    ensures e.Answer? || e.Download? ==> SameSurroundings(w.s, Step(w, e, net).s)
  {
    hide OnReply, StartNext;
    if e.Answer? {
      AnswersKeepList(w.s, e.reply, e.disk, net);
      AbsorbedState(Taken(w, e.reply.streamId, e.disk), OnReply(w.s, e.reply, e.disk, net));
    } else if e.Download? && w.s.connected && w.s.directories != [] {
      var s := w.s.(downloads := seq(|w.s.directories|, _ => FRESH), current := 0, downloading := true);
      StartNextKeepsList(s, net);
      AbsorbedState(Begin(w, e.sources), StartNext(s, net));
    }
  }

  /**
   * So it is from the start: whatever happened before, a download that the user asks for and a
   * fair server answers ends, with every file of the list last delivered on the disk, exactly when
   * no file among them has a size that is a positive multiple of 4 GiB, unless the stream ids run out.
   */
  lemma EveryDownloadComesThrough(events: History, sources: seq<bytes>, server: Server, net: Network)
    requires Possible(START, events) && HasChannel(events) && Delivered(events) != []
    requires NoWrap(Run(START, events).s) && Enabled(Run(START, events), Download(sources))
    requires FairServer(server) && forall id :: net(id)
    ensures var directories := Delivered(events);
            var b := Step(Run(START, events), Download(sources), net);
            && |directories| == |sources| && Inv(b) && OnCourse(b)
            && var r := Drive(b, server, net);
               && (NoWrap(r.s) ==>
                     (!r.s.downloading <==>
                        forall i :: 0 <= i < |sources| && !directories[i] ==>
                          |sources[i]| == 0 || |sources[i]| % 0x1_0000_0000 != 0))
               && (!r.s.downloading ==>
                     && |r.s.downloads| == |sources|
                     && forall i :: 0 <= i < |sources| && !directories[i] ==> r.s.downloads[i].temp == Closed(sources[i]))
  {
    hide Run, Possible, Step, Inv, OnCourse, FairServer, Drive;
    RunFromStart(events);
    SurroundingsFollow(events);
    DownloadBegins(Run(START, events), sources, net);
    DownloadsComeThrough(Step(Run(START, events), Download(sources), net), server, net);
  }

  // ----- three runs

  /** The download of one file, from the start. */
  function OneFile(source: bytes, net: Network): (events: seq<(Event, Network)>) {
    [(ChannelUp, net), (NewFiles, net), (FormatData(Data([false])), net), (Download([source]), net)]
  }

  lemma OneFileBegins(source: bytes, net: Network)
    requires |source| < 0x1_0000_0000_0000_0000 && net(1)
    ensures Possible(START, OneFile(source, net))
    ensures Run(START, OneFile(source, net))
         == World(State(true, false, [false], [FRESH.(streamId := 1)], 0, true, 2), [source],
                  map[1 := Pending(Request(1, 0, true, 0, 8), source, 2)], [], 2, map[])
  {
    hide Run, Possible;
    var e0: seq<(Event, Network)> := [];
    var e1 := e0 + [(ChannelUp, net)];
    var e2 := e1 + [(NewFiles, net)];
    var e3 := e2 + [(FormatData(Data([false])), net)];
    assert OneFile(source, net) == e3 + [(Download([source]), net)];
    NoStep();
    OneMore(START, e0, ChannelUp, net);
    OneMore(START, e1, NewFiles, net);
    OneMore(START, e2, FormatData(Data([false])), net);
    OneMore(START, e3, Download([source]), net);
    var w := World(State(true, false, [false], [], 0, false, 1), [], map[], [], 1, map[]);
    assert Run(START, e3) == w;
    FirstRequest(w, source, net);
  }

  lemma FirstRequest(w: World, source: bytes, net: Network)
    requires w == World(State(true, false, [false], [], 0, false, 1), [], map[], [], 1, map[]) && net(1)
    ensures Step(w, Download([source]), net)
         == World(State(true, false, [false], [FRESH.(streamId := 1)], 0, true, 2), [source],
                  map[1 := Pending(Request(1, 0, true, 0, 8), source, 2)], [], 2, map[])
  {
    assert seq(1, _ => FRESH) == [FRESH];
    assert [FRESH][0 := FRESH.(streamId := 1)] == [FRESH.(streamId := 1)];
  }

  /** An empty file whose temp file cannot be opened is reported done all the same. */
  lemma AnEmptyFileCanBeMissing(net: Network)
    requires net(1)
    ensures var events := OneFile([], net) + [(Answer(Reply(1, true, SizeBytes(0)), Disk(false, 0, false, 0)), net)];
            var w := Run(START, events);
            && Possible(START, events) && |w.s.downloads| == 1 && Done(0, 0) in w.log
            && w.s.downloads[0].temp == Absent
  {
    hide Run, Possible, SizeBytes;
    var disk := Disk(false, 0, false, 0);
    OneFileBegins([], net);
    OneMore(START, OneFile([], net), Answer(Reply(1, true, SizeBytes(0)), disk), net);
    SizeRoundTrip(0);
    var w := Run(START, OneFile([], net));
    FindFirst(w.s.downloads[0]);
    var e := FRESH.(streamId := 1, sized := true);
    EndOfQueue(e.(temp := Absent, complete := true), net);
  }

  lemma FindFirst(e: Entry)
    ensures Find([e], e.streamId) == Some(0)
  {}

  lemma EndOfQueue(e: Entry, net: Network)
    ensures forall n :: var s := State(true, false, [false], [e], 1, true, n);
                        StartNext(s, net) == Outcome(s.(downloading := false), [], None, true)
  {}

  /** The world in which the first range of the one file was asked for. */
  lemma OneFileOpens(source: bytes, disk: Disk, net: Network)
    requires 0 < |source| < 0x1_0000_0000_0000_0000 && disk.opens && net(1) && net(2)
    ensures var events := OneFile(source, net) + [(Answer(Reply(1, true, SizeBytes(|source|)), disk), net)];
            var e := Entry(2, |source|, 0, Open, true, false, []);
            && Possible(START, events)
            && Run(START, events)
               == World(State(true, false, [false], [e], 0, true, 3), [source],
                        map[2 := Pending(Request(2, 0, false, 0, FirstLength(e)), source, 2)], [], 2, map[0 := disk])
  {
    hide Run, Possible, SizeBytes, SizeOf, FirstLength;
    OneFileBegins(source, net);
    OneMore(START, OneFile(source, net), Answer(Reply(1, true, SizeBytes(|source|)), disk), net);
    SizeRoundTrip(|source|);
    var w := Run(START, OneFile(source, net));
    FindFirst(w.s.downloads[0]);
    OpensAndAsks(w.s, source, disk, net);
    assert w.pending - {1} == map[];
  }

  lemma OpensAndAsks(s: State, source: bytes, disk: Disk, net: Network)
    requires s == State(true, false, [false], [FRESH.(streamId := 1)], 0, true, 2)
    requires 0 < |source| && SizeOf(SizeBytes(|source|)) == |source| && disk.opens && net(2)
    ensures var e := Entry(2, |source|, 0, Open, true, false, []);
            OnSize(s, 0, SizeBytes(|source|), disk, net)
            == Outcome(State(true, false, [false], [e], 0, true, 3), [], Some(Request(2, 0, false, 0, FirstLength(e))), false)
  {
    hide SizeOf, SizeBytes;
  }

  /** A file whose stream cannot be flushed is reported done all the same, with its last bytes lost. */
  lemma AFileCanBeCutShort(net: Network)
    requires net(1) && net(2)
    ensures var events := OneFile([7], net)
                          + [(Answer(Reply(1, true, SizeBytes(1)), Disk(true, 0, true, 0)), net)]
                          + [(Answer(Reply(2, true, [7]), Disk(true, 1, false, 0)), net)];
            var w := Run(START, events);
            && Possible(START, events) && |w.s.downloads| == 1 && w.sources == [[7]] && Done(0, 1) in w.log
            && w.s.downloads[0].temp == Closed([])
  {
    hide Run, Possible, SizeBytes;
    OneFileOpens([7], Disk(true, 0, true, 0), net);
    var events := OneFile([7], net) + [(Answer(Reply(1, true, SizeBytes(1)), Disk(true, 0, true, 0)), net)];
    OneMore(START, events, Answer(Reply(2, true, [7]), Disk(true, 1, false, 0)), net);
    var w := Run(START, events);
    FindFirst(w.s.downloads[0]);
    EndOfQueue(Entry(2, 1, 1, Closed([]), true, true, [7]), net);
    assert [7][..1] == [7] && [] + [7] == [7];
  }

  /** A file with a size that is a multiple of 4 GiB stops the queue, and no answers move it again. */
  lemma AHugeFileStopsTheQueue(source: bytes, disk: Disk, net: Network, answers: seq<(Event, Network)>)
    requires Huge(source) && |source| < 0x1_0000_0000_0000_0000 && disk.opens && net(1) && net(2)
    ensures var events := OneFile(source, net) + [(Answer(Reply(1, true, SizeBytes(|source|)), disk), net)];
            var w := Run(START, events);
            && Possible(START, events) && w.s.downloading && w.log == []
            && (Possible(w, answers) && AllAnswers(answers) ==> Run(w, answers).s == w.s)
  {
    hide Run, Possible, SizeBytes, Inv;
    OneFileOpens(source, disk, net);
    var events := OneFile(source, net) + [(Answer(Reply(1, true, SizeBytes(|source|)), disk), net)];
    var w := Run(START, events);
    RunFromStart(events);
    StalledAsksForNothing(w);
    if Possible(w, answers) && AllAnswers(answers) {
      NoAnswersMoveTheQueue(w, answers);
    }
  }
}
