/**
 * cliprdr_file.c: the queue of files fetched from the server's clipboard, as functions on
 * the module's state. One step sends at most one request that goes out.
 */
module Downloads {
  import opened Bytes

  const CHUNK := 256 * 1024
  const MAX_STREAM_ID := 0x7FFF_FFFF

  /** A temp file: not there, written to through a stream, or closed with what the disk holds of it. */
  datatype TempFile = Absent | Open | Closed(content: bytes)

  /** One file of the queue; `file` is what the stream of its temp file accepted. */
  datatype Entry = Entry(
    streamId: nat,
    total: nat,
    received: nat,
    temp: TempFile,
    sized: bool,
    complete: bool,
    file: bytes
  )

  const FRESH := Entry(0, 0, 0, Absent, false, false, [])

  /** A FileContentsRequest: the size of a file, or a range of it. */
  datatype Request = Request(streamId: nat, index: nat, sizes: bool, offset: nat, length: nat)

  datatype Output = Done(index: nat, size: nat) | Error(index: nat) | Progress(index: nat, received: nat)

  /**
   * `directories`: the server's file list, of which only this matters here. `listAwaited`:
   * cliprdr.c takes the next format data for such a list.
   */
  datatype State = State(
    connected: bool,
    listAwaited: bool,
    directories: seq<bool>,
    downloads: seq<Entry>,
    current: nat,
    downloading: bool,
    nextStreamId: nat
  )

  const INITIAL := State(false, false, [], [], 0, false, 1)

  /** What a step leads to: the events it sent out, the request that went out, and whether the queue ran empty. */
  datatype Outcome = Outcome(state: State, output: seq<Output>, request: Option<Request>, finished: bool)

  function Quiet(s: State): (r: Outcome) {
    Outcome(s, [], None, false)
  }

  function After(output: seq<Output>, o: Outcome): (r: Outcome) {
    o.(output := output + o.output)
  }

  /** Which requests the channel takes, by their stream id. */
  type Network = nat -> bool

  /** send_file_contents_request, and whether it succeeded. Stream ids count up to 2^31 - 1 and start over at 1. */
  function Send(s: State, index: nat, sizes: bool, offset: nat, length: nat, net: Network): (r: (State, Option<Request>))
    ensures s.connected ==> r.0.nextStreamId == if s.nextStreamId < 2147483647 then s.nextStreamId + 1 else 1
    ensures r.1 == if s.connected && net(s.nextStreamId) then Some(Request(s.nextStreamId, index, sizes, offset, length))
                   else None
  {
    if !s.connected then (s, None)
    else
      var id := s.nextStreamId;
      var next := if id + 1 > MAX_STREAM_ID then 1 else id + 1;
      var downloads := if index < |s.downloads| then s.downloads[index := s.downloads[index].(streamId := id)]
        else s.downloads;
      (s.(nextStreamId := next, downloads := downloads),
       if net(id) then Some(Request(id, index, sizes, offset, length)) else None)
  }

  function CompleteCurrent(s: State): (r: State)
    requires s.current < |s.downloads|
  {
    s.(downloads := s.downloads[s.current := s.downloads[s.current].(complete := true)], current := s.current + 1)
  }

  /** The first range asked for: cut to 32 bits before it is cut to a chunk. */
  function FirstLength(e: Entry): (r: nat) {
    Min((e.total - e.received) % 0x1_0000_0000, CHUNK)
  }

  /** start_next_download */
  function StartNext(s: State, net: Network): (r: Outcome)
    decreases |s.downloads| - s.current
  {
    if s.current >= |s.downloads| then Outcome(s.(downloading := false), [], None, true)
    else
      var e := s.downloads[s.current];
      if e.complete then StartNext(s.(current := s.current + 1), net)
      else if s.current < |s.directories| && s.directories[s.current] then
        After([Done(s.current, 0)], StartNext(CompleteCurrent(s), net))
      else if !e.sized then
        var (next, request) := Send(s, s.current, true, 0, 8, net);
        if request.Some? then Outcome(next, [], request, false)
        else After([Error(s.current)], StartNext(CompleteCurrent(next), net))
      else
        var (next, request) := Send(s, s.current, false, e.received, FirstLength(e), net);
        Outcome(next, [], request, false)
  }

  /** The queue entry a reply belongs to: the first of its stream id. */
  function Find(downloads: seq<Entry>, streamId: nat): (r: Option<nat>)
    ensures r.Some? ==> r.value < |downloads| && downloads[r.value].streamId == streamId
    ensures r.None? ==> forall i :: 0 <= i < |downloads| ==> downloads[i].streamId != streamId
    ensures r.Some? ==> forall i :: 0 <= i < r.value ==> downloads[i].streamId != streamId
  {
    if downloads == [] then None
    else if downloads[0].streamId == streamId then Some(0)
    else
      match Find(downloads[1..], streamId)
      case None => None
      case Some(i) => Some(i + 1)
  }

  /** A FileContentsResponse. */
  datatype Reply = Reply(streamId: nat, ok: bool, data: bytes)

  /** Eight bytes of size, or four, or none, least significant byte first. */
  function SizeOf(data: bytes): (r: nat)
    ensures |data| < 4 ==> r == 0
    ensures |data| >= 4 ==>
              r % 0x1_0000_0000
              == data[0] as nat + 0x100 * data[1] as nat + 0x1_0000 * data[2] as nat + 0x100_0000 * data[3] as nat
    ensures 4 <= |data| < 8 ==> r < 0x1_0000_0000
    ensures |data| >= 8 ==>
              r / 0x1_0000_0000
              == data[4] as nat + 0x100 * data[5] as nat + 0x1_0000 * data[6] as nat + 0x100_0000 * data[7] as nat
  {
    if |data| >= 8 then U32At(data, 0) + 0x1_0000_0000 * U32At(data, 4)
    else if |data| >= 4 then U32At(data, 0)
    else 0
  }

  /**
   * The local side of a reply: whether the temp file opens, how much of the data its stream
   * takes, and whether the stream can be flushed and closed; if it cannot, the disk keeps the
   * first `kept` bytes.
   */
  datatype Disk = Disk(opens: bool, takes: nat, closes: bool, kept: nat)

  /** What the disk holds of a file after its stream is flushed and closed; a failure is only logged. */
  function Flushed(file: bytes, disk: Disk): (r: bytes)
    ensures r <= file
  {
    if disk.closes then file else file[..Min(disk.kept, |file|)]
  }

  function Put(s: State, i: nat, e: Entry): (r: State)
    requires i < |s.downloads|
  {
    s.(downloads := s.downloads[i := e])
  }

  /** Entry `i` ends and the queue moves on by one. */
  function Finish(s: State, i: nat, output: Output, net: Network): (r: Outcome)
    requires i < |s.downloads|
  {
    After([output],
          StartNext(Put(s, i, s.downloads[i].(complete := true)).(current := s.current + 1), net))
  }

  function OnSize(s: State, i: nat, data: bytes, disk: Disk, net: Network): (r: Outcome)
    requires i < |s.downloads|
  {
    var e := s.downloads[i].(total := SizeOf(data), sized := true);
    var t := Put(s, i, e);
    if e.total == 0 then Finish(Put(t, i, e.(temp := if disk.opens then Closed([]) else Absent)), i, Done(i, 0), net)
    else if !disk.opens then Finish(t, i, Error(i), net)
    else StartNext(Put(t, i, e.(temp := Open)), net)
  }

  function OnRange(s: State, i: nat, data: bytes, disk: Disk, net: Network): (r: Outcome)
    requires i < |s.downloads|
  {
    var e := s.downloads[i];
    if data == [] || !e.temp.Open? then Quiet(s)
    else
      var n := Min(disk.takes, |data|);
      var received := e.received + n;
      var f := e.(received := received, file := e.file + data[..n]);
      var t := Put(s, i, f);
      if received >= e.total then
        After([Progress(i, received)],
              Finish(Put(t, i, f.(temp := Closed(Flushed(f.file, disk)))), i, Done(i, e.total), net))
      else
        var (next, request) := Send(t, i, false, received, Min(e.total - received, CHUNK), net);
        Outcome(next, [Progress(i, received)], request, false)
  }

  /** cb_server_file_contents_response */
  function OnReply(s: State, reply: Reply, disk: Disk, net: Network): (r: Outcome) {
    if !s.downloading || s.downloads == [] then Quiet(s)
    else
      match Find(s.downloads, reply.streamId)
      case None => Quiet(s)
      case Some(i) =>
        if !reply.ok then Finish(s, i, Error(i), net)
        else if !s.downloads[i].sized then OnSize(s, i, reply.data, disk, net)
        else OnRange(s, i, reply.data, disk, net)
  }

  /** free_downloads */
  function FreeDownloads(s: State): (r: State) {
    s.(downloads := [], current := 0, downloading := false)
  }

  /** cliprdr_file_request_download */
  function RequestDownload(s: State, net: Network): (r: Outcome)
    ensures !s.connected || s.directories == [] ==> r == Quiet(s)
  {
    if !s.connected || s.directories == [] then Quiet(s)
    else
      StartNext(s.(downloads := seq(|s.directories|, _ => FRESH), current := 0, downloading := true), net)
  }

  /** The server offers files: cliprdr.c awaits their list, and what was known and fetched of others is dropped. */
  function HasFiles(s: State): (r: State) {
    FreeDownloads(s).(directories := [], listAwaited := true)
  }

  /** A format data response: a failure, nothing, or data; `directories` is the list they parse as, empty when unreadable. */
  datatype FormatData = Refused | Empty | Data(directories: seq<bool>)

  /** cb_server_format_data_response: only the first data after an offer are a file list, others are text. */
  function OnFormatData(s: State, answer: FormatData): (r: State) {
    match answer
    case Refused => s.(listAwaited := false)
    case Empty => s
    case Data(directories) => if s.listAwaited then s.(directories := directories, listAwaited := false) else s
  }

  function Connect(s: State): (r: State) {
    s.(connected := true, listAwaited := false)
  }

  function Disconnect(s: State): (r: State) {
    FreeDownloads(s).(connected := false, listAwaited := false)
  }

  // ----- the end of a queue

  lemma {:induction false} StartNextEnds(s: State, net: Network)
    requires s.downloading
    ensures StartNext(s, net).finished <==> !StartNext(s, net).state.downloading
    ensures StartNext(s, net).state.connected == s.connected
    decreases |s.downloads| - s.current
  {
    hide FirstLength;
    if s.current < |s.downloads| {
      var e := s.downloads[s.current];
      if e.complete {
        StartNextEnds(s.(current := s.current + 1), net);
      } else if s.current < |s.directories| && s.directories[s.current] {
        StartNextEnds(CompleteCurrent(s), net);
      } else if !e.sized {
        StartNextEnds(CompleteCurrent(Send(s, s.current, true, 0, 8, net).0), net);
      }
    }
  }

  /** A queue has ended in a step exactly when the step left off downloading. */
  lemma FinishedMeans(s: State, reply: Reply, disk: Disk, net: Network)
    ensures var o := OnReply(s, reply, disk, net);
            (o.finished <==> s.downloading && !o.state.downloading) && o.state.connected == s.connected
    ensures var o := RequestDownload(s, net);
            (o.finished <==> s.connected && s.directories != [] && !o.state.downloading) && o.state.connected == s.connected
  {
    hide StartNext, SizeOf;
    forall t: State | t.downloading
      ensures (StartNext(t, net).finished <==> !StartNext(t, net).state.downloading)
           && StartNext(t, net).state.connected == t.connected
    {
      StartNextEnds(t, net);
    }
  }
}
