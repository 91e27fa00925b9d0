/**
 * Whole runs of the download queue against a server that answers each request at most once,
 * and truthfully: what every step keeps.
 */
module DownloadRuns {
  import opened Bytes
  import opened Downloads

  /** A request the server has not answered, the file it was for and the download it was made in. */
  datatype Pending = Pending(request: Request, source: bytes, epoch: nat)

  /**
   * `sources`: the files of the current download; `log`: the events since it began; `disks`:
   * the local side of the last answer each of its files took.
   */
  datatype World = World(
    s: State,
    sources: seq<bytes>,
    pending: map<nat, Pending>,
    log: seq<Output>,
    epoch: nat,
    disks: map<nat, Disk>
  )

  const START := World(INITIAL, [], map[], [], 0, map[])

  datatype Event =
    | Answer(reply: Reply, disk: Disk)
    | Download(sources: seq<bytes>)
    | NewFiles
    | FormatData(answer: Downloads.FormatData)
    | ChannelUp
    | ChannelDown

  // ----- the server

  function SizeBytes(n: nat): (s: bytes)
    ensures |s| == 8
  {
    U32Bytes(n) + U32Bytes(n / 0x1_0000_0000)
  }

  /** Eight bytes, least significant first. */
  lemma SizeBytesAre(n: nat)
    requires n < 0x1_0000_0000_0000_0000
    ensures var s := SizeBytes(n);
            s[0] as nat + 0x100 * s[1] as nat + 0x1_0000 * s[2] as nat + 0x100_0000 * s[3] as nat
            + 0x1_0000_0000 * (s[4] as nat + 0x100 * s[5] as nat + 0x1_0000 * s[6] as nat + 0x100_0000 * s[7] as nat)
            == n
  {
    hide U32Bytes;
    U32RoundTrip(n);
    U32RoundTrip(n / 0x1_0000_0000);
  }

  lemma SizeRoundTrip(n: nat)
    requires n < 0x1_0000_0000_0000_0000
    ensures SizeOf(SizeBytes(n)) == n
  {
    hide U32At, U32Bytes;
    var high := n / 0x1_0000_0000;
    U32RoundTrip(n);
    U32RoundTrip(high);
    var s := SizeBytes(n);
    FieldOf(s, 0, U32Bytes(n));
    FieldOf(s, 4, U32Bytes(high));
  }

  lemma FieldOf(s: bytes, i: nat, f: bytes)
    requires |f| == 4 && i + 4 <= |s| && s[i..i + 4] == f
    ensures U32At(s, i) == U32At(f, 0)
  {
    assert f[0] == s[i] && f[1] == s[i + 1] && f[2] == s[i + 2] && f[3] == s[i + 3];
  }

  /** The part of a file that a range request asks for. */
  function Slice(source: bytes, offset: nat, length: nat): (r: bytes) {
    if offset > |source| then [] else source[offset..Min(offset + length, |source|)]
  }

  /** A true answer: the size, or some of the range from its beginning. */
  predicate Truthful(p: Pending, data: bytes) {
    if p.request.sizes then data == SizeBytes(|p.source|)
    else data <= Slice(p.source, p.request.offset, p.request.length)
  }

  predicate Enabled(w: World, e: Event) {
    match e
    case Answer(reply, _) =>
      reply.streamId in w.pending && (reply.ok ==> Truthful(w.pending[reply.streamId], reply.data))
    case Download(sources) =>
      |sources| == |w.s.directories| && forall i :: 0 <= i < |sources| ==> |sources[i]| < 0x1_0000_0000_0000_0000
    case _ => true
  }

  // ----- steps

  function Absorb(w: World, o: Outcome): (r: World) {
    w.(s := o.state,
       log := w.log + o.output,
       pending := if o.request.Some? && o.request.value.index < |w.sources|
                  then w.pending[o.request.value.streamId :=
                                   Pending(o.request.value, w.sources[o.request.value.index], w.epoch)]
                  else w.pending)
  }

  function Step(w: World, e: Event, net: Network): (r: World) {
    match e
    case Answer(reply, disk) => Absorb(Taken(w, reply.streamId, disk), OnReply(w.s, reply, disk, net))
    case Download(sources) =>
      if !w.s.connected || w.s.directories == [] then w
      else Absorb(Begin(w, sources), RequestDownload(w.s, net))
    case NewFiles => Cancel(w, HasFiles(w.s))
    case FormatData(answer) => w.(s := OnFormatData(w.s, answer))
    case ChannelUp => w.(s := Connect(w.s))
    case ChannelDown => Cancel(w, Disconnect(w.s))
  }

  /** An answered request is forgotten. */
  function Answered(w: World, id: nat): (r: World) {
    w.(pending := w.pending - {id})
  }

  /** And the file that takes the answer, if one does, meets its local side. */
  function Taken(w: World, id: nat, disk: Disk): (r: World) {
    var v := Answered(w, id);
    match Find(w.s.downloads, id)
    case None => v
    case Some(i) => if w.s.downloading then v.(disks := w.disks[i := disk]) else v
  }

  function Begin(w: World, sources: seq<bytes>): (r: World) {
    w.(sources := sources, log := [], epoch := w.epoch + 1, disks := map[])
  }

  function Cancel(w: World, s: State): (r: World) {
    w.(s := s, sources := [], log := [], epoch := w.epoch + 1, disks := map[])
  }

  /** Enough stream ids are left for any step. */
  predicate NoWrap(s: State) {
    s.nextStreamId + |s.downloads| + |s.directories| < MAX_STREAM_ID
  }

  // ----- the invariant

  /** A temp file holds what was received of its source, and no more. */
  predicate EntryHolds(e: Entry, source: bytes) {
    && e.received <= |source| && e.file == source[..e.received]
    && (e.sized ==> e.total == |source|)
  }

  predicate EntryPlace(s: State, i: nat)
    requires i < |s.downloads|
  {
    var e := s.downloads[i];
    && e.streamId < s.nextStreamId
    && (i < s.current ==> e.complete)
    && (i > s.current ==> e == FRESH)
    && (i == s.current ==> !e.complete && if e.sized then e.temp.Open? && e.received < e.total else e.received == 0)
  }

  ghost predicate Entries(w: World) {
    && |w.sources| == |w.s.downloads|
    && forall i :: 0 <= i < |w.s.downloads| ==>
         && EntryHolds(w.s.downloads[i], w.sources[i]) && |w.sources[i]| < 0x1_0000_0000_0000_0000 && EntryPlace(w.s, i)
         && (IsDirectory(w, i) ==> Untouched(w.s.downloads[i]))
  }

  /** Nothing was asked for, or received of, a directory. */
  predicate Untouched(e: Entry) {
    !e.sized && e.received == 0
  }

  ghost predicate Scalars(w: World) {
    && (w.s.downloads != [] ==> w.s.connected)
    && w.s.current <= |w.s.downloads| && w.s.nextStreamId >= 1
    && (w.s.downloads != [] ==> |w.s.directories| == |w.s.downloads|)
    && (w.s.listAwaited ==> w.s.directories == [] && w.s.downloads == [])
  }

  /**
   * How much a range request asks for: what is left, up to 256 KiB, or, for the first one, the
   * last 32 bits of what is left, up to 256 KiB.
   */
  predicate IsLength(e: Entry, length: nat) {
    && e.received <= e.total
    && (var left := e.total - e.received;
        || length == (if left < 262144 then left else 262144)
        || length == (if left % 0x1_0000_0000 < 262144 then left % 0x1_0000_0000 else 262144))
  }

  /** A request asks for what its entry needs next: its size, or the range behind what it has. */
  predicate Asks(r: Request, e: Entry, i: nat) {
    && r.index == i && r.sizes == !e.sized && r.streamId == e.streamId
    && (r.sizes ==> r.offset == 0 && r.length == 8)
    && (!r.sizes ==> r.offset == e.received && IsLength(e, r.length))
  }

  /** A pending request that an entry would accept is the current entry's own. */
  ghost predicate PendingHolds(w: World, id: nat)
    requires id in w.pending && |w.sources| == |w.s.downloads|
  {
    && 1 <= id < w.s.nextStreamId && w.pending[id].epoch <= w.epoch
    && forall i :: 0 <= i < |w.s.downloads| && w.s.downloads[i].streamId == id ==>
         && i == w.s.current && w.pending[id].epoch == w.epoch && w.pending[id].source == w.sources[i]
         && !IsDirectory(w, i)
         && Asks(w.pending[id].request, w.s.downloads[i], i)
  }

  ghost predicate Requests(w: World)
    requires |w.sources| == |w.s.downloads|
  {
    forall id :: id in w.pending ==> PendingHolds(w, id)
  }

  function Finals(log: seq<Output>, i: nat): (r: nat) {
    if log == [] then 0
    else Finals(log[..|log| - 1], i) + (if log[|log| - 1].Progress? || log[|log| - 1].index != i then 0 else 1)
  }

  /** The temp file of a source that was fetched to its end. */
  function Fetched(source: bytes, disk: Disk): (r: TempFile) {
    if source == [] then if disk.opens then Closed([]) else Absent
    else Closed(Flushed(source, disk))
  }

  /** A file was accepted to its end, and the disk holds what its last answer's local side left there. */
  ghost predicate IsFetched(w: World, i: nat, e: Entry, n: nat) {
    && i < |w.sources| && n == |w.sources[i]|
    && i in w.disks && e.temp == Fetched(w.sources[i], w.disks[i])
  }

  /** Each entry has its one final event when it is complete, and what is reported done was fetched. */
  ghost predicate EventsHold(w: World, i: nat)
    requires i < |w.s.downloads| && |w.sources| == |w.s.downloads|
  {
    && Finals(w.log, i) == (if w.s.downloads[i].complete then 1 else 0)
    && forall n :: Done(i, n) in w.log ==>
         && w.s.downloads[i].complete && w.s.downloads[i].received == n
         && (!IsDirectory(w, i) ==> IsFetched(w, i, w.s.downloads[i], n))
  }

  predicate IsDirectory(w: World, i: nat) {
    i < |w.s.directories| && w.s.directories[i]
  }

  ghost predicate Events(w: World)
    requires |w.sources| == |w.s.downloads|
  {
    forall i :: 0 <= i < |w.s.downloads| ==> EventsHold(w, i)
  }

  ghost predicate Core(w: World) {
    Entries(w) && Scalars(w) && Requests(w) && Events(w)
  }

  ghost predicate Inv(w: World) {
    Core(w) && (w.s.downloading <==> w.s.current < |w.s.downloads|)
  }

  /** No reply can be taken. */
  ghost predicate Unmatched(w: World) {
    forall id, i :: id in w.pending && 0 <= i < |w.s.downloads| ==> w.s.downloads[i].streamId != id
  }

  /** How start_next_download finds the queue: nothing of the current file was received yet. */
  ghost predicate Ready(w: World) {
    && w.s.downloading && Unmatched(w)
    && (w.s.current < |w.s.downloads| ==> w.s.downloads[w.s.current].received == 0)
  }

  // ----- what start_next_download keeps

  /** The world after the current entry got its final event and the queue moved on. */
  function Next(w: World, e: Entry, o: Output): (r: World)
    requires w.s.current < |w.s.downloads|
  {
    w.(s := w.s.(downloads := w.s.downloads[w.s.current := e], current := w.s.current + 1), log := w.log + [o])
  }

  ghost predicate FinalFor(w: World, e: Entry, o: Output)
    requires w.s.current < |w.s.downloads|
  {
    match o
    case Error(i) => i == w.s.current
    case Done(i, n) => i == w.s.current && n == e.received
                       && (!IsDirectory(w, i) ==> IsFetched(w, i, e, n))
    case Progress(_, _) => false
  }

  lemma FinalsAppend(log: seq<Output>, o: Output, i: nat)
    ensures Finals(log + [o], i) == Finals(log, i) + (if o.Progress? || o.index != i then 0 else 1)
  {
    assert (log + [o])[..|log|] == log;
  }

  lemma NextKeepsEvents(w: World, e: Entry, o: Output)
    requires Entries(w) && Events(w) && w.s.current < |w.s.downloads| && e.complete && FinalFor(w, e, o)
    ensures Events(Next(w, e, o))
  {
    hide EntryHolds, Finals;
    var r := Next(w, e, o);
    forall i | 0 <= i < |r.s.downloads| ensures EventsHold(r, i) {
      assert EntryPlace(w.s, i) && EventsHold(w, i);
      FinalsAppend(w.log, o, i);
      forall n | Done(i, n) in r.log
        ensures r.s.downloads[i].complete && r.s.downloads[i].received == n
        ensures !IsDirectory(r, i) ==> IsFetched(r, i, r.s.downloads[i], n)
      {
        if Done(i, n) in w.log {
        } else {
          assert o == Done(i, n);
        }
      }
    }
  }

  lemma NextKeepsCore(w: World, e: Entry, o: Output)
    requires Core(w) && Unmatched(w) && w.s.downloading && w.s.current < |w.s.downloads|
    requires e.complete && EntryHolds(e, w.sources[w.s.current]) && FinalFor(w, e, o)
    requires e.streamId < w.s.nextStreamId && e.streamId !in w.pending
    requires IsDirectory(w, w.s.current) ==> Untouched(e)
    ensures Core(Next(w, e, o)) && Ready(Next(w, e, o))
  {
    hide EntryHolds, Finals, EventsHold, Asks, FinalFor;
    NextKeepsEvents(w, e, o);
    var r := Next(w, e, o);
    hide Events;
    forall i | 0 <= i < |r.s.downloads|
      ensures EntryHolds(r.s.downloads[i], r.sources[i]) && |r.sources[i]| < 0x1_0000_0000_0000_0000 && EntryPlace(r.s, i)
      ensures IsDirectory(r, i) ==> Untouched(r.s.downloads[i])
    {
      assert EntryPlace(w.s, i);
      if i == w.s.current + 1 { FreshHolds(r.sources[i]); }
    }
    forall id | id in r.pending ensures PendingHolds(r, id) {
      assert PendingHolds(w, id);
    }
  }

  lemma FreshHolds(source: bytes)
    ensures EntryHolds(FRESH, source)
  {}

  /** The world after the current entry's new request was tried. */
  function Tried(w: World, sizes: bool, offset: nat, length: nat, net: Network): (r: World)
    requires w.s.current < |w.s.downloads|
  {
    var (s, request) := Send(w.s, w.s.current, sizes, offset, length, net);
    Absorb(w, Outcome(s, [], request, false))
  }

  predicate AsksNext(e: Entry, sizes: bool, offset: nat, length: nat) {
    if sizes then offset == 0 && length == 8 else offset == e.received && IsLength(e, length)
  }

  lemma TriedKeepsCore(w: World, sizes: bool, offset: nat, length: nat, net: Network)
    requires Core(w) && Unmatched(w) && w.s.current < |w.s.downloads| && w.s.nextStreamId < MAX_STREAM_ID
    requires sizes == !w.s.downloads[w.s.current].sized && AsksNext(w.s.downloads[w.s.current], sizes, offset, length)
    requires !IsDirectory(w, w.s.current)
    ensures Core(Tried(w, sizes, offset, length, net))
    ensures Send(w.s, w.s.current, sizes, offset, length, net).1.None? && Ready(w) ==>
              Ready(Tried(w, sizes, offset, length, net))
  {
    hide EntryHolds, Finals;
    var r := Tried(w, sizes, offset, length, net);
    assert r.log == w.log;
    forall i | 0 <= i < |r.s.downloads|
      ensures EntryHolds(r.s.downloads[i], r.sources[i]) && |r.sources[i]| < 0x1_0000_0000_0000_0000 && EntryPlace(r.s, i)
      ensures IsDirectory(r, i) ==> Untouched(r.s.downloads[i])
    {
      assert EntryHolds(w.s.downloads[i], w.sources[i]) && EntryPlace(w.s, i);
      SameContent(w.s.downloads[i], r.s.downloads[i], w.sources[i]);
    }
    forall id | id in r.pending ensures PendingHolds(r, id) {
      if id in w.pending { assert PendingHolds(w, id); }
    }
    forall i | 0 <= i < |r.s.downloads| ensures EventsHold(r, i) {
      assert EventsHold(w, i);
    }
  }

  lemma SameContent(a: Entry, b: Entry, source: bytes)
    requires EntryHolds(a, source) && b.received == a.received && b.file == a.file && b.sized == a.sized && b.total == a.total
    ensures EntryHolds(b, source)
  {}

  lemma AbsorbAfter(w: World, o: Output, rest: Outcome)
    ensures Absorb(w, After([o], rest)) == Absorb(w.(log := w.log + [o]), rest)
  {
    assert w.log + ([o] + rest.output) == w.log + [o] + rest.output;
  }

  /** The state given to the rest of start_next_download is that of the world reached so far. */
  lemma AbsorbFrom(w: World, s: State, o: Outcome)
    ensures Absorb(w.(s := s), o) == Absorb(w, o)
  {}

  lemma CurrentEntry(w: World)
    requires Core(w) && Ready(w) && w.s.current < |w.s.downloads|
    ensures |w.sources| == |w.s.downloads|
    ensures var e := w.s.downloads[w.s.current];
            && !e.complete && e.streamId < w.s.nextStreamId && EntryHolds(e, w.sources[w.s.current])
            && e.received == 0 && w.s.connected && e.streamId !in w.pending
            && (e.sized ==> |w.sources[w.s.current]| > 0 && !IsDirectory(w, w.s.current))
    ensures var e := w.s.downloads[w.s.current]; e.sized ==> IsLength(e, FirstLength(e))
    ensures Unmatched(w) && w.s.downloading
  {
    assert EntryPlace(w.s, w.s.current);
  }

  lemma {:induction false} StartNextKeeps(w: World, net: Network)
    requires Core(w) && Ready(w) && w.s.nextStreamId + (|w.s.downloads| - w.s.current) <= MAX_STREAM_ID
    ensures Inv(Absorb(w, StartNext(w.s, net)))
    decreases |w.s.downloads| - w.s.current
  {
    hide Core, Ready, Absorb, Send, FinalFor, EntryHolds, FirstLength, Tried, Next, After;
    if w.s.current >= |w.s.downloads| {
      QueueEmpty(w, net);
    } else {
      var e := w.s.downloads[w.s.current];
      CurrentEntry(w);
      if w.s.current < |w.s.directories| && w.s.directories[w.s.current] {
        var next := Next(w, e.(complete := true), Done(w.s.current, 0));
        GiveDirectory(w, next, net);
        StartNextKeeps(next, net);
      } else if !e.sized {
        if Send(w.s, w.s.current, true, 0, 8, net).1.Some? {
          Waiting(w, true, 0, 8, net);
        } else {
          var next := GiveUp(w, net);
          StartNextKeeps(next, net);
        }
      } else {
        Waiting(w, false, e.received, FirstLength(e), net);
      }
    }
  }

  lemma QueueEmpty(w: World, net: Network)
    requires Core(w) && w.s.current >= |w.s.downloads|
    ensures Inv(Absorb(w, StartNext(w.s, net)))
  {
    hide EntryHolds, Finals, Asks;
    var r := Absorb(w, StartNext(w.s, net));
    assert r.log == w.log;
    forall i | 0 <= i < |r.s.downloads| ensures EntryPlace(r.s, i) && EventsHold(r, i) {
      assert EntryPlace(w.s, i) && EventsHold(w, i);
    }
    forall id | id in r.pending ensures PendingHolds(r, id) {
      assert PendingHolds(w, id);
    }
  }

  lemma Waiting(w: World, sizes: bool, offset: nat, length: nat, net: Network)
    requires Core(w) && Unmatched(w) && w.s.downloading && w.s.current < |w.s.downloads|
    requires w.s.nextStreamId < MAX_STREAM_ID
    requires sizes == !w.s.downloads[w.s.current].sized && AsksNext(w.s.downloads[w.s.current], sizes, offset, length)
    requires !IsDirectory(w, w.s.current)
    ensures var (s, request) := Send(w.s, w.s.current, sizes, offset, length, net);
            Inv(Absorb(w, Outcome(s, [], request, false)))
  {
    hide Core;
    TriedKeepsCore(w, sizes, offset, length, net);
  }

  lemma GiveDirectory(w: World, next: World, net: Network)
    requires Core(w) && Ready(w) && w.s.current < |w.s.downloads|
    requires w.s.current < |w.s.directories| && w.s.directories[w.s.current]
    requires next == Next(w, w.s.downloads[w.s.current].(complete := true), Done(w.s.current, 0))
    ensures Core(next) && Ready(next)
    ensures |next.s.downloads| == |w.s.downloads| && next.s.current == w.s.current + 1
    ensures next.s.nextStreamId == w.s.nextStreamId
    ensures Absorb(w, StartNext(w.s, net)) == Absorb(next, StartNext(next.s, net))
  {
    hide Core, Ready, Absorb, EntryHolds;
    CurrentEntry(w);
    var e := w.s.downloads[w.s.current];
    SameContent(e, e.(complete := true), w.sources[w.s.current]);
    NextKeepsCore(w, e.(complete := true), Done(w.s.current, 0));
    AbsorbAfter(w, Done(w.s.current, 0), StartNext(next.s, net));
    AbsorbFrom(w.(log := w.log + [Done(w.s.current, 0)]), next.s, StartNext(next.s, net));
  }

  lemma GiveUp(w: World, net: Network) returns (next: World)
    requires Core(w) && Ready(w) && w.s.current < |w.s.downloads| && w.s.nextStreamId < MAX_STREAM_ID
    requires !IsDirectory(w, w.s.current) && !w.s.downloads[w.s.current].sized
    requires Send(w.s, w.s.current, true, 0, 8, net).1.None?
    ensures Core(next) && Ready(next)
    ensures |next.s.downloads| == |w.s.downloads| && next.s.current == w.s.current + 1
    ensures next.s.nextStreamId <= w.s.nextStreamId + 1
    ensures Absorb(w, StartNext(w.s, net)) == Absorb(next, StartNext(next.s, net))
  {
    hide Core, Ready, Absorb, EntryHolds;
    CurrentEntry(w);
    TriedKeepsCore(w, true, 0, 8, net);
    var t := Tried(w, true, 0, 8, net);
    TriedIsSent(w, t, true, 0, 8, net);
    var e := t.s.downloads[w.s.current];
    CurrentEntry(t);
    SameContent(e, e.(complete := true), t.sources[w.s.current]);
    next := Next(t, e.(complete := true), Error(w.s.current));
    NextKeepsCore(t, e.(complete := true), Error(w.s.current));
    AbsorbAfter(w, Error(w.s.current), StartNext(next.s, net));
    AbsorbFrom(w.(log := w.log + [Error(w.s.current)]), next.s, StartNext(next.s, net));
    assert next == w.(log := w.log + [Error(w.s.current)]).(s := next.s);
  }

  lemma TriedIsSent(w: World, t: World, sizes: bool, offset: nat, length: nat, net: Network)
    requires w.s.current < |w.s.downloads|
    requires t == Tried(w, sizes, offset, length, net) && Send(w.s, w.s.current, sizes, offset, length, net).1.None?
    ensures t == w.(s := Send(w.s, w.s.current, sizes, offset, length, net).0)
    ensures t.s.current == w.s.current && |t.s.downloads| == |w.s.downloads|
  {
    assert w.log + [] == w.log;
  }

  // ----- what every step keeps

  lemma AnsweredKeepsInv(w: World, id: nat)
    requires Inv(w)
    ensures Inv(Answered(w, id))
  {
    hide EntryHolds, EntryPlace, Finals, Asks;
    var r := Answered(w, id);
    forall p | p in r.pending ensures PendingHolds(r, p) {
      assert PendingHolds(w, p);
    }
    forall i | 0 <= i < |r.s.downloads| ensures EventsHold(r, i) {
      assert EventsHold(w, i);
    }
  }

  /** What a pending request that is answered has to do with the entry that takes the answer. */
  lemma AnswerIsForCurrent(w: World, id: nat, i: nat)
    requires Inv(w) && id in w.pending && i < |w.s.downloads| && w.s.downloads[i].streamId == id
    ensures w.s.downloading && i == w.s.current && |w.sources| == |w.s.downloads|
    ensures w.pending[id].source == w.sources[i] && w.pending[id].epoch == w.epoch
    ensures Asks(w.pending[id].request, w.s.downloads[i], i) && !IsDirectory(w, i)
    ensures EntryHolds(w.s.downloads[i], w.sources[i]) && |w.sources[i]| < 0x1_0000_0000_0000_0000
    ensures EntryPlace(w.s, i)
    ensures Unmatched(Answered(w, id))
  {
    hide EntryHolds, EntryPlace, Asks, Finals;
    assert PendingHolds(w, id);
    var r := Answered(w, id);
    forall p, k | p in r.pending && 0 <= k < |r.s.downloads| ensures r.s.downloads[k].streamId != p {
      assert PendingHolds(w, p);
    }
  }

  lemma TakenKeepsInv(w: World, id: nat, disk: Disk)
    requires Inv(w) && id in w.pending
    ensures Inv(Taken(w, id, disk))
    ensures w.s.downloading && Find(w.s.downloads, id).Some? ==>
              var v := Taken(w, id, disk);
              w.s.current in v.disks && v.disks[w.s.current] == disk && Unmatched(v)
  {
    hide EntryHolds, Finals, Asks, Fetched;
    AnsweredKeepsInv(w, id);
    var v, r := Answered(w, id), Taken(w, id, disk);
    if w.s.downloading && Find(w.s.downloads, id).Some? {
      AnswerIsForCurrent(w, id, Find(w.s.downloads, id).value);
      forall i | 0 <= i < |r.s.downloads| ensures EventsHold(r, i) {
        assert EventsHold(v, i) && EntryPlace(v.s, i);
      }
      forall p | p in r.pending ensures PendingHolds(r, p) {
        assert PendingHolds(v, p);
      }
    }
  }

  /** The current entry gets what was received. */
  function Updated(w: World, e: Entry): (r: World)
    requires w.s.current < |w.s.downloads|
  {
    w.(s := Put(w.s, w.s.current, e))
  }

  lemma UpdatedKeepsCore(w: World, e: Entry)
    requires Core(w) && Unmatched(w) && w.s.downloading && w.s.current < |w.s.downloads|
    requires EntryHolds(e, w.sources[w.s.current]) && e.streamId == w.s.downloads[w.s.current].streamId
    requires e.sized && e.temp.Open? && !e.complete && e.received < e.total
    requires !IsDirectory(w, w.s.current)
    ensures Core(Updated(w, e)) && Unmatched(Updated(w, e))
  {
    hide EntryHolds, Finals, Asks;
    var r := Updated(w, e);
    assert EntryPlace(w.s, w.s.current);
    forall i | 0 <= i < |r.s.downloads|
      ensures EntryHolds(r.s.downloads[i], r.sources[i]) && EntryPlace(r.s, i) && EventsHold(r, i)
    {
      assert EntryPlace(w.s, i) && EventsHold(w, i);
    }
    forall id | id in r.pending ensures PendingHolds(r, id) {
      assert PendingHolds(w, id);
    }
  }

  lemma ProgressKeepsCore(w: World, i: nat, received: nat)
    requires Core(w)
    ensures Core(w.(log := w.log + [Progress(i, received)]))
  {
    hide EntryHolds, EntryPlace, Finals, Asks;
    var r := w.(log := w.log + [Progress(i, received)]);
    forall id | id in r.pending ensures PendingHolds(r, id) {
      assert PendingHolds(w, id);
    }
    forall k | 0 <= k < |r.s.downloads| ensures EventsHold(r, k) {
      assert EventsHold(w, k);
      FinalsAppend(w.log, Progress(i, received), k);
      assert forall n :: Done(k, n) in r.log ==> Done(k, n) in w.log;
    }
  }

  /** The current file ends: the world in which the queue goes on. */
  lemma FinishWorld(w: World, s: State, e: Entry, o: Output, net: Network) returns (next: World)
    requires Core(w) && Unmatched(w) && w.s.downloading && w.s.current < |w.s.downloads|
    requires e.streamId == w.s.downloads[w.s.current].streamId && !e.complete
    requires s == Put(w.s, w.s.current, e)
    requires EntryHolds(e, w.sources[w.s.current]) && FinalFor(w, e, o) && !IsDirectory(w, w.s.current)
    ensures Core(next) && Ready(next)
    ensures next.s.nextStreamId == w.s.nextStreamId && |next.s.downloads| == |w.s.downloads|
    ensures next.s.current == w.s.current + 1 && next.log == w.log + [o] && next.sources == w.sources
    ensures next.disks == w.disks && next.s.directories == w.s.directories
    ensures Absorb(w, Finish(s, w.s.current, o, net)) == Absorb(next, StartNext(next.s, net))
  {
    hide Core, Unmatched, Absorb, EntryHolds, FinalFor, StartNext, Ready;
    var f := e.(complete := true);
    FinishedEntry(w, e, o);
    next := Next(w, f, o);
    NextKeepsCore(w, f, o);
    AbsorbAfter(w, o, StartNext(next.s, net));
    AbsorbFrom(w.(log := w.log + [o]), next.s, StartNext(next.s, net));
    assert Put(s, w.s.current, f).(current := w.s.current + 1) == next.s by {
      assert s.downloads[w.s.current := f] == w.s.downloads[w.s.current := f];
    }
  }

  lemma FinishKeeps(w: World, s: State, e: Entry, o: Output, net: Network)
    requires Core(w) && Unmatched(w) && w.s.downloading && w.s.current < |w.s.downloads|
    requires e.streamId == w.s.downloads[w.s.current].streamId && !e.complete
    requires s == Put(w.s, w.s.current, e)
    requires EntryHolds(e, w.sources[w.s.current]) && FinalFor(w, e, o) && !IsDirectory(w, w.s.current)
    requires w.s.nextStreamId + |w.s.downloads| <= MAX_STREAM_ID
    ensures Inv(Absorb(w, Finish(s, w.s.current, o, net)))
  {
    hide Core, Unmatched, Absorb, EntryHolds, FinalFor, StartNext, Ready, Inv, Finish;
    var next := FinishWorld(w, s, e, o, net);
    StartNextKeeps(next, net);
  }

  lemma FinishedEntry(w: World, e: Entry, o: Output)
    requires Core(w) && Unmatched(w) && w.s.current < |w.s.downloads|
    requires e.streamId == w.s.downloads[w.s.current].streamId
    requires EntryHolds(e, w.sources[w.s.current]) && FinalFor(w, e, o)
    ensures var f := e.(complete := true);
            && EntryHolds(f, w.sources[w.s.current]) && FinalFor(w, f, o)
            && f.streamId < w.s.nextStreamId && f.streamId !in w.pending
  {
    hide Finals, Asks;
    assert EntryPlace(w.s, w.s.current);
  }

  lemma SizeAnswerKeeps(w: World, data: bytes, disk: Disk, net: Network)
    requires Core(w) && Unmatched(w) && w.s.downloading && w.s.current < |w.s.downloads|
    requires !w.s.downloads[w.s.current].sized && data == SizeBytes(|w.sources[w.s.current]|)
    requires !IsDirectory(w, w.s.current) && w.s.current in w.disks && w.disks[w.s.current] == disk
    requires w.s.nextStreamId + |w.s.downloads| <= MAX_STREAM_ID
    ensures Inv(Absorb(w, OnSize(w.s, w.s.current, data, disk, net)))
  {
    hide Core, Unmatched, Absorb, StartNext, Ready, Inv, Finish, SizeBytes, SizeOf;
    var i := w.s.current;
    UnsizedEntry(w);
    SizeRoundTrip(|w.sources[i]|);
    var e := w.s.downloads[i].(total := |w.sources[i]|, sized := true);
    if e.total == 0 {
      var f := e.(temp := if disk.opens then Closed([]) else Absent);
      assert Put(Put(w.s, i, e), i, f) == Put(w.s, i, f) by {
        assert w.s.downloads[i := e][i := f] == w.s.downloads[i := f];
      }
      FinishKeeps(w, Put(w.s, i, f), f, Done(i, 0), net);
    } else if !disk.opens {
      FinishKeeps(w, Put(w.s, i, e), e, Error(i), net);
    } else {
      var next := OpenedWorld(w, data, disk, net);
      StartNextKeeps(next, net);
    }
  }

  /** The size came and the temp file opened: the world in which the first range is asked for. */
  lemma OpenedWorld(w: World, data: bytes, disk: Disk, net: Network) returns (next: World)
    requires Core(w) && Unmatched(w) && w.s.downloading && w.s.current < |w.s.downloads|
    requires |w.sources| == |w.s.downloads| && !w.s.downloads[w.s.current].sized
    requires data == SizeBytes(|w.sources[w.s.current]|) && |w.sources[w.s.current]| > 0 && disk.opens
    requires !IsDirectory(w, w.s.current)
    ensures Core(next) && Ready(next)
    ensures next.s.nextStreamId == w.s.nextStreamId && |next.s.downloads| == |w.s.downloads|
    ensures next.s.current == w.s.current && next.log == w.log && next.sources == w.sources
    ensures next.s.downloads[w.s.current].sized && next.s.downloads[w.s.current].total == |w.sources[w.s.current]|
    ensures next.s.directories == w.s.directories && next.pending == w.pending && next.disks == w.disks
    ensures Absorb(w, OnSize(w.s, w.s.current, data, disk, net)) == Absorb(next, StartNext(next.s, net))
    ensures OnSize(w.s, w.s.current, data, disk, net) == StartNext(next.s, net)
  {
    hide Core, Unmatched, Absorb, StartNext, Ready, Finish, SizeBytes, SizeOf;
    var i := w.s.current;
    UnsizedEntry(w);
    SizeRoundTrip(|w.sources[i]|);
    var e := w.s.downloads[i].(total := |w.sources[i]|, sized := true);
    var f := e.(temp := Open);
    UpdatedKeepsCore(w, f);
    next := Updated(w, f);
    assert Put(Put(w.s, i, e), i, f) == next.s by {
      assert w.s.downloads[i := e][i := f] == w.s.downloads[i := f];
    }
    ReadyOf(next);
    AbsorbFrom(w, next.s, StartNext(next.s, net));
  }

  lemma ReadyOf(w: World)
    requires w.s.downloading && Unmatched(w)
    requires w.s.current < |w.s.downloads| ==> w.s.downloads[w.s.current].received == 0
    ensures Ready(w)
  {}

  lemma UnsizedEntry(w: World)
    requires Core(w) && w.s.current < |w.s.downloads| && !w.s.downloads[w.s.current].sized
    ensures |w.sources| == |w.s.downloads|
    ensures var e, source := w.s.downloads[w.s.current], w.sources[w.s.current];
            && e.received == 0 && e.file == [] && !e.complete && |source| < 0x1_0000_0000_0000_0000
            && EntryHolds(e.(total := |source|, sized := true), source)
            && forall t :: EntryHolds(e.(total := |source|, sized := true, temp := t), source)
  {
    assert EntryPlace(w.s, w.s.current);
  }

  lemma RangeAnswerKeeps(w: World, data: bytes, disk: Disk, net: Network, length: nat)
    requires Core(w) && Unmatched(w) && w.s.downloading && w.s.current < |w.s.downloads|
    requires w.s.downloads[w.s.current].sized
    requires data <= Slice(w.sources[w.s.current], w.s.downloads[w.s.current].received, length)
    requires !IsDirectory(w, w.s.current) && w.s.current in w.disks && w.disks[w.s.current] == disk
    requires w.s.nextStreamId + |w.s.downloads| <= MAX_STREAM_ID
    ensures Inv(Absorb(w, OnRange(w.s, w.s.current, data, disk, net)))
  {
    hide Core, Unmatched, Absorb, StartNext, Ready, Inv, Finish, Slice, Send, EntryHolds;
    var i := w.s.current;
    var e := w.s.downloads[i];
    if data == [] || !e.temp.Open? {
      NothingChanges(w);
    } else {
      var n := Min(disk.takes, |data|);
      var received := e.received + n;
      var f := e.(received := received, file := e.file + data[..n]);
      ReceivedHolds(w, data, length, n);
      var logged := w.(log := w.log + [Progress(i, received)]);
      ProgressKeepsCore(w, i, received);
      LogKeepsUnmatched(w, logged.log);
      if received >= e.total {
        var g := f.(temp := Closed(Flushed(f.file, disk)));
        assert Put(Put(w.s, i, f), i, g) == Put(logged.s, i, g) by {
          assert w.s.downloads[i := f][i := g] == w.s.downloads[i := g];
        }
        FetchedWhole(logged, i, f, disk);
        FinishKeeps(logged, Put(logged.s, i, g), g, Done(i, e.total), net);
        AbsorbAfter(w, Progress(i, received), Finish(Put(logged.s, i, g), i, Done(i, e.total), net));
      } else {
        UpdatedKeepsCore(logged, f);
        var next := Updated(logged, f);
        Waiting(next, false, received, Min(e.total - received, CHUNK), net);
        var (s, request) := Send(next.s, i, false, received, Min(e.total - received, CHUNK), net);
        AbsorbAfter(w, Progress(i, received), Outcome(s, [], request, false));
        AbsorbFrom(logged, next.s, Outcome(s, [], request, false));
        assert After([Progress(i, received)], Outcome(s, [], request, false))
           == Outcome(s, [Progress(i, received)], request, false);
      }
    }
  }

  /** A source accepted to its end is reported done as what was fetched. */
  lemma FetchedWhole(w: World, i: nat, f: Entry, disk: Disk)
    requires i == w.s.current < |w.s.downloads| && i < |w.sources| && i in w.disks && w.disks[i] == disk
    requires f.file == w.sources[i] && w.sources[i] != [] && f.received == |w.sources[i]| && EntryHolds(f, w.sources[i])
    ensures var g := f.(temp := Closed(Flushed(f.file, disk)));
            FinalFor(w, g, Done(i, |w.sources[i]|)) && EntryHolds(g, w.sources[i])
  {}

  lemma LogKeepsUnmatched(w: World, log: seq<Output>)
    requires Unmatched(w)
    ensures Unmatched(w.(log := log))
  {}

  lemma NothingChanges(w: World)
    requires Core(w) && w.s.downloading && w.s.current < |w.s.downloads|
    ensures Inv(Absorb(w, Quiet(w.s)))
  {
    assert w.log + [] == w.log;
    assert Absorb(w, Quiet(w.s)) == w;
  }

  lemma ReceivedHolds(w: World, data: bytes, length: nat, n: nat)
    requires Core(w) && w.s.current < |w.s.downloads| && w.s.downloads[w.s.current].sized && n <= |data|
    requires data <= Slice(w.sources[w.s.current], w.s.downloads[w.s.current].received, length)
    ensures |w.sources| == |w.s.downloads|
    ensures var e, source := w.s.downloads[w.s.current], w.sources[w.s.current];
            var f := e.(received := e.received + n, file := e.file + data[..n]);
            && !e.complete && e.total == |source| && e.temp.Open? && f.received <= |source|
            && EntryHolds(f, source)
            && (f.received >= e.total ==> f.file == source && source != [] && f.received == |source|)
            && forall t :: EntryHolds(f.(temp := t), source)
  {
    hide Finals, Asks;
    var e, source := w.s.downloads[w.s.current], w.sources[w.s.current];
    assert EntryHolds(e, source) && EntryPlace(w.s, w.s.current);
    var slice := Slice(source, e.received, length);
    assert data[..n] == slice[..n] == source[e.received..e.received + n];
    assert source[..e.received] + source[e.received..e.received + n] == source[..e.received + n];
  }

  lemma AnswerKeeps(w: World, reply: Reply, disk: Disk, net: Network)
    requires Inv(w) && NoWrap(w.s) && Enabled(w, Answer(reply, disk))
    ensures Inv(Step(w, Answer(reply, disk), net))
  {
    hide Inv, Core, Unmatched, Absorb, Finish, OnSize, OnRange, Slice, SizeBytes, EntryHolds, EntryPlace;
    var v := Taken(w, reply.streamId, disk);
    TakenKeepsInv(w, reply.streamId, disk);
    var found := Find(w.s.downloads, reply.streamId);
    if !w.s.downloading || w.s.downloads == [] || found.None? {
      QuietKeeps(v);
    } else {
      var i := found.value;
      AnswerIsForCurrent(w, reply.streamId, i);
      assert Core(v) by { InvIsCore(v); }
      var p := w.pending[reply.streamId];
      if !reply.ok {
        CurrentIncomplete(w);
        assert Put(v.s, i, v.s.downloads[i]) == v.s;
        FinishKeeps(v, v.s, v.s.downloads[i], Error(i), net);
      } else if !w.s.downloads[i].sized {
        SizeAnswerKeeps(v, reply.data, disk, net);
      } else {
        RangeAnswerKeeps(v, reply.data, disk, net, p.request.length);
      }
    }
  }

  lemma InvIsCore(w: World)
    requires Inv(w)
    ensures Core(w)
  {}

  lemma CurrentIncomplete(w: World)
    requires Inv(w) && w.s.current < |w.s.downloads|
    ensures !w.s.downloads[w.s.current].complete
  {
    assert EntryPlace(w.s, w.s.current);
  }

  lemma QuietKeeps(w: World)
    requires Inv(w)
    ensures Inv(Absorb(w, Quiet(w.s)))
  {
    assert w.log + [] == w.log;
    assert Absorb(w, Quiet(w.s)) == w;
  }

  /** A download was accepted: the world in which its queue starts. */
  lemma DownloadWorld(w: World, sources: seq<bytes>, net: Network) returns (begun: World)
    requires Inv(w) && NoWrap(w.s) && Enabled(w, Download(sources)) && w.s.connected && w.s.directories != []
    ensures Core(begun) && Ready(begun) && begun.sources == sources && begun.log == [] && begun.disks == map[]
    ensures begun.s.nextStreamId == w.s.nextStreamId && |begun.s.downloads| == |w.s.directories|
    ensures begun.s.current == 0 && begun.s.directories == w.s.directories
    ensures Step(w, Download(sources), net) == Absorb(begun, StartNext(begun.s, net))
  {
    hide Absorb, StartNext, EntryHolds, Asks;
    var s := w.s.(downloads := seq(|w.s.directories|, _ => FRESH), current := 0, downloading := true);
    begun := Begin(w, sources).(s := s);
    forall i | 0 <= i < |s.downloads| ensures EntryHolds(s.downloads[i], sources[i]) {
      FreshHolds(sources[i]);
    }
    forall id | id in begun.pending ensures PendingHolds(begun, id) {
      assert PendingHolds(w, id);
    }
    AbsorbFrom(Begin(w, sources), s, StartNext(s, net));
  }

  lemma DownloadKeeps(w: World, sources: seq<bytes>, net: Network)
    requires Inv(w) && NoWrap(w.s) && Enabled(w, Download(sources))
    ensures Inv(Step(w, Download(sources), net))
  {
    hide Absorb, StartNext, Core, Ready;
    if w.s.connected && w.s.directories != [] {
      var begun := DownloadWorld(w, sources, net);
      StartNextKeeps(begun, net);
    }
  }

  lemma CancelKeeps(w: World, s: State)
    requires Inv(w) && s.downloads == [] && s.current == 0 && !s.downloading && s.nextStreamId == w.s.nextStreamId
    requires s.listAwaited ==> s.directories == []
    ensures Inv(Cancel(w, s))
  {
    var r := Cancel(w, s);
    forall id | id in r.pending ensures PendingHolds(r, id) {
      assert PendingHolds(w, id);
    }
  }

  lemma FormatDataKeeps(w: World, answer: Downloads.FormatData, net: Network)
    requires Inv(w)
    ensures Inv(Step(w, FormatData(answer), net))
  {
    hide EntryHolds, Asks, Finals;
    var r := Step(w, FormatData(answer), net);
    forall id | id in r.pending ensures PendingHolds(r, id) {
      assert PendingHolds(w, id);
    }
    forall i | 0 <= i < |r.s.downloads| ensures EntryPlace(r.s, i) && EventsHold(r, i) {
      assert EntryPlace(w.s, i) && EventsHold(w, i);
    }
  }

  lemma UpKeeps(w: World, net: Network)
    requires Inv(w)
    ensures Inv(Step(w, ChannelUp, net))
  {
    hide EntryHolds, Asks, Finals;
    var r := Step(w, ChannelUp, net);
    forall id | id in r.pending ensures PendingHolds(r, id) {
      assert PendingHolds(w, id);
    }
    forall i | 0 <= i < |r.s.downloads| ensures EntryPlace(r.s, i) && EventsHold(r, i) {
      assert EntryPlace(w.s, i) && EventsHold(w, i);
    }
  }

  /** Every step keeps the invariant. */
  lemma StepKeeps(w: World, e: Event, net: Network)
    requires Inv(w) && NoWrap(w.s) && Enabled(w, e)
    ensures Inv(Step(w, e, net))
  {
    hide Inv, NoWrap, Enabled, OnReply, RequestDownload, Absorb;
    match e
    case Answer(reply, disk) => AnswerKeeps(w, reply, disk, net);
    case Download(sources) => DownloadKeeps(w, sources, net);
    case NewFiles => CancelKeeps(w, HasFiles(w.s));
    case FormatData(answer) => FormatDataKeeps(w, answer, net);
    case ChannelUp => UpKeeps(w, net);
    case ChannelDown => CancelKeeps(w, Disconnect(w.s));
  }

  // ----- runs

  /** A run: what happens, and what the channel takes while it happens. */
  function Run(w: World, events: seq<(Event, Network)>): (r: World)
    decreases |events|
  {
    if events == [] then w else Run(Step(w, events[0].0, events[0].1), events[1..])
  }

  predicate Possible(w: World, events: seq<(Event, Network)>)
    decreases |events|
  {
    events == []
    || (Enabled(w, events[0].0) && NoWrap(w.s) && Possible(Step(w, events[0].0, events[0].1), events[1..]))
  }

  lemma {:induction false} RunKeeps(w: World, events: seq<(Event, Network)>)
    requires Inv(w) && Possible(w, events)
    ensures Inv(Run(w, events))
    decreases |events|
  {
    hide Inv, Step, Enabled, NoWrap;
    if events != [] {
      StepKeeps(w, events[0].0, events[0].1);
      RunKeeps(Step(w, events[0].0, events[0].1), events[1..]);
    }
  }

  lemma RunFromStart(events: seq<(Event, Network)>)
    requires Possible(START, events)
    ensures Inv(Run(START, events))
  {
    RunKeeps(START, events);
  }

  /** Whether the disk holds all of a file whose last answer met this local side. */
  predicate Keeps(source: bytes, disk: Disk) {
    if source == [] then disk.opens else disk.closes || disk.kept >= |source|
  }

  /**
   * Over every run the stream of each temp file has accepted exactly what was received of its
   * source. What is reported done is a directory, with size 0, or a source accepted in full,
   * with its size; and its whole source is on the disk if and only if the temp file of an empty
   * source opened, or the stream of any other was flushed and closed, or failed to be with
   * nothing lost.
   */
  lemma FilesAreTheirSources(events: seq<(Event, Network)>, i: nat)
    requires Possible(START, events)
    ensures var w := Run(START, events);
            |w.sources| == |w.s.downloads|
            && (i < |w.s.downloads| ==>
                  var e := w.s.downloads[i];
                  && |w.s.directories| == |w.s.downloads|
                  && e.received <= |w.sources[i]| && e.file == w.sources[i][..e.received]
                  && (forall n: nat :: Done(i, n) in w.log ==>
                        if w.s.directories[i] then n == 0
                        else
                          && n == |w.sources[i]| && e.file == w.sources[i] && i in w.disks
                          && (e.temp == Closed(w.sources[i]) <==> Keeps(w.sources[i], w.disks[i]))))
  {
    RunFromStart(events);
    var w := Run(START, events);
    if i < |w.s.downloads| {
      assert EntryHolds(w.s.downloads[i], w.sources[i]) && EventsHold(w, i);
      assert w.sources[i][..|w.sources[i]|] == w.sources[i];
    }
  }

  /** No format data that may arrive while a download exists change its file list. */
  lemma ListsStayDuringDownloads(events: seq<(Event, Network)>, answer: Downloads.FormatData)
    requires Possible(START, events) && Run(START, events).s.downloads != []
    ensures var s := Run(START, events).s;
            !s.listAwaited && OnFormatData(s, answer) == s && |s.directories| == |s.downloads|
  {
    RunFromStart(events);
  }

  /** Each file has at most one final event, and exactly one when the queue is through. */
  lemma OneFinalEventEach(events: seq<(Event, Network)>, i: nat)
    requires Possible(START, events)
    ensures var w := Run(START, events);
            i < |w.s.downloads| ==> Finals(w.log, i) <= 1 && (!w.s.downloading ==> Finals(w.log, i) == 1)
  {
    RunFromStart(events);
    var w := Run(START, events);
    if i < |w.s.downloads| {
      assert EventsHold(w, i) && EntryPlace(w.s, i);
    }
  }

  /** A request whose answer would be taken. */
  predicate Live(w: World, id: nat) {
    id in w.pending && w.s.downloading && Find(w.s.downloads, id).Some?
  }

  /**
   * At most one request is live; it belongs to the current file of the current download and
   * asks for what that file lacks.
   */
  lemma OneLiveRequest(events: seq<(Event, Network)>, id: nat, other: nat)
    requires Possible(START, events) && Live(Run(START, events), id)
    ensures var w := Run(START, events);
            && Find(w.s.downloads, id) == Some(w.s.current) && |w.sources| == |w.s.downloads|
            && w.pending[id].epoch == w.epoch && w.pending[id].source == w.sources[w.s.current]
            && Asks(w.pending[id].request, w.s.downloads[w.s.current], w.s.current)
            && (Live(w, other) ==> other == id)
  {
    hide Asks, Step;
    RunFromStart(events);
    var w := Run(START, events);
    AnswerIsForCurrent(w, id, Find(w.s.downloads, id).value);
    if Live(w, other) {
      AnswerIsForCurrent(w, other, Find(w.s.downloads, other).value);
    }
  }

  /** An answer to a request of a download that was cancelled changes nothing. */
  lemma StaleAnswersChangeNothing(events: seq<(Event, Network)>, reply: Reply, disk: Disk, net: Network)
    requires Possible(START, events)
    requires var w := Run(START, events); reply.streamId in w.pending && w.pending[reply.streamId].epoch < w.epoch
    ensures OnReply(Run(START, events).s, reply, disk, net) == Quiet(Run(START, events).s)
  {
    hide Asks, Step, Finish, OnSize, OnRange;
    RunFromStart(events);
    var w := Run(START, events);
    if w.s.downloading && Find(w.s.downloads, reply.streamId).Some? {
      AnswerIsForCurrent(w, reply.streamId, Find(w.s.downloads, reply.streamId).value);
    }
  }

  /**
   * What the answer to a live request is reported as: a failure as an error; of a range, how much
   * of the file there is now; and the end of a file that is complete, empty, or cannot be opened.
   */
  lemma AnswersAreReported(events: seq<(Event, Network)>, reply: Reply, disk: Disk, net: Network)
    requires Possible(START, events) && Live(Run(START, events), reply.streamId)
    requires Enabled(Run(START, events), Answer(reply, disk))
    ensures var w := Run(START, events);
            var p, o, i := w.pending[reply.streamId], OnReply(w.s, reply, disk, net), w.s.current;
            && (!reply.ok ==> [Error(i)] <= o.output)
            && (reply.ok && p.request.sizes ==>
                  && (p.source == [] ==> [Done(i, 0)] <= o.output)
                  && (p.source != [] && !disk.opens ==> [Error(i)] <= o.output))
            && (reply.ok && !p.request.sizes ==>
                  if reply.data == [] then o == Quiet(w.s)
                  else
                    var n := p.request.offset + if disk.takes < |reply.data| then disk.takes else |reply.data|;
                    && [Progress(i, n)] <= o.output
                    && (n == |p.source| <==> |o.output| > 1)
                    && (n == |p.source| ==> o.output[1] == Done(i, n)))
  {
    hide Step, Run, Possible, StartNext, SizeBytes, SizeOf, EntryHolds, EntryPlace, Asks, Slice, Inv, OnRange, OnSize,
      Truthful;
    RunFromStart(events);
    var w := Run(START, events);
    var p, i := w.pending[reply.streamId], Find(w.s.downloads, reply.streamId).value;
    AnswerIsForCurrent(w, reply.streamId, i);
    if reply.ok {
      if p.request.sizes {
        SizeIsReported(w.s, i, p, reply.data, disk, net);
      } else {
        RangeIsReported(w.s, i, p, reply.data, disk, net);
      }
    }
  }

  lemma SizeIsReported(s: State, i: nat, p: Pending, data: bytes, disk: Disk, net: Network)
    requires i < |s.downloads| && Asks(p.request, s.downloads[i], i) && p.request.sizes
    requires Truthful(p, data) && |p.source| < 0x1_0000_0000_0000_0000
    ensures !s.downloads[i].sized
    ensures p.source == [] ==> [Done(i, 0)] <= OnSize(s, i, data, disk, net).output
    ensures p.source != [] && !disk.opens ==> [Error(i)] <= OnSize(s, i, data, disk, net).output
  {
    hide StartNext, SizeBytes, SizeOf;
    SizeRoundTrip(|p.source|);
  }

  lemma RangeIsReported(s: State, i: nat, p: Pending, data: bytes, disk: Disk, net: Network)
    requires i < |s.downloads| && i == s.current && Asks(p.request, s.downloads[i], i) && !p.request.sizes
    requires Truthful(p, data) && EntryHolds(s.downloads[i], p.source) && EntryPlace(s, i)
    ensures s.downloads[i].sized
    ensures var o := OnRange(s, i, data, disk, net);
            if data == [] then o == Quiet(s)
            else
              var n := p.request.offset + if disk.takes < |data| then disk.takes else |data|;
              && [Progress(i, n)] <= o.output
              && (n == |p.source| <==> |o.output| > 1)
              && (n == |p.source| ==> o.output[1] == Done(i, n))
  {
    hide StartNext, Send, IsLength;
  }
}
