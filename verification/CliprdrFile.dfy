/** cliprdr_file.c, and what cliprdr.c routes to it: the modules' globals, changed in place. */
module CliprdrFile {
  import opened Bytes
  import opened Downloads

  class Clipboard {
    var connected: bool
    /** cliprdr.c's flag that the next format data are a file list. */
    var pendingFgd: bool
    var directories: seq<bool>
    var downloads: seq<Entry>
    var downloadCurrent: nat
    var downloading: bool
    var nextStreamId: nat
    /** The events sent to the parent. */
    var output: seq<Output>

    constructor ()
      ensures View() == INITIAL && output == []
    {
      connected, pendingFgd, directories, downloads := false, false, [], [];
      downloadCurrent, downloading, nextStreamId, output := 0, false, 1, [];
    }

    ghost function View(): (r: State)
      reads this
    {
      State(connected, pendingFgd, directories, downloads, downloadCurrent, downloading, nextStreamId)
    }

    method SendFileContentsRequest(index: nat, sizes: bool, offset: nat, length: nat, net: Network)
      returns (request: Option<Request>)
      modifies this`nextStreamId, this`downloads
      ensures (View(), request) == Send(old(View()), index, sizes, offset, length, net)
    {
      if !connected {
        return None;
      }
      var id := nextStreamId;
      nextStreamId := nextStreamId + 1;
      if nextStreamId > MAX_STREAM_ID {
        nextStreamId := 1;
      }
      if index < |downloads| {
        downloads := downloads[index := downloads[index].(streamId := id)];
      }
      return if net(id) then Some(Request(id, index, sizes, offset, length)) else None;
    }

    /** The loop of start_next_download: the state, the events and the request of the function. */
    method StartNextDownload(net: Network) returns (request: Option<Request>, finished: bool)
      modifies this
      ensures var o := StartNext(old(View()), net);
              View() == o.state && output == old(output) + o.output && request == o.request && finished == o.finished
    {
      hide StartNext, Send, CompleteCurrent, FirstLength;
      ghost var whole := StartNext(View(), net);
      ghost var done: seq<Output> := [];
      assert output + done == output;
      assert After([], whole) == whole;
      while downloadCurrent < |downloads|
        invariant output == old(output) + done
        invariant whole == After(done, StartNext(View(), net))
        decreases |downloads| - downloadCurrent
      {
        ghost var before := View();
        QueueGoesOn(before, net);
        assert done + [] == done;
        if downloads[downloadCurrent].complete {
          downloadCurrent := downloadCurrent + 1;
          continue;
        }
        if downloadCurrent < |directories| && directories[downloadCurrent] {
          CompleteDirectory();
          Report(done, Done(before.current, 0), StartNext(View(), net));
          done := done + [Done(before.current, 0)];
          continue;
        }
        if !downloads[downloadCurrent].sized {
          request := RequestSize(net);
          if request.Some? {
            return request, false;
          }
          Report(done, Error(before.current), StartNext(View(), net));
          done := done + [Error(before.current)];
          continue;
        }
        var entry := downloads[downloadCurrent];
        request := SendFileContentsRequest(downloadCurrent, false, entry.received, FirstLength(entry), net);
        return request, false;
      }
      QueueIsThrough(View(), net);
      downloading := false;
      assert done + [] == done;
      return None, true;
    }

    /** What the function does with the current entry. */
    lemma QueueGoesOn(s: State, net: Network)
      requires s.current < |s.downloads|
      ensures var e, o := s.downloads[s.current], StartNext(s, net);
              if e.complete then o == StartNext(s.(current := s.current + 1), net)
              else if s.current < |s.directories| && s.directories[s.current] then
                o == After([Done(s.current, 0)], StartNext(CompleteCurrent(s), net))
              else if !e.sized then
                var (next, r) := Send(s, s.current, true, 0, 8, net);
                s.current == next.current < |next.downloads|
                && o == if r.Some? then Outcome(next, [], r, false)
                        else After([Error(s.current)], StartNext(CompleteCurrent(next), net))
              else
                var (next, r) := Send(s, s.current, false, e.received, FirstLength(e), net);
                o == Outcome(next, [], r, false)
    {
      hide FirstLength;
    }

    lemma QueueIsThrough(s: State, net: Network)
      requires s.current >= |s.downloads|
      ensures StartNext(s, net) == Outcome(s.(downloading := false), [], None, true)
    {}

    method CompleteDirectory()
      requires downloadCurrent < |downloads|
      modifies this`downloads, this`output, this`downloadCurrent
      ensures View() == CompleteCurrent(old(View())) && output == old(output) + [Done(old(downloadCurrent), 0)]
      ensures |downloads| == old(|downloads|) && downloadCurrent == old(downloadCurrent) + 1
    {
      downloads := downloads[downloadCurrent := downloads[downloadCurrent].(complete := true)];
      output := output + [Done(downloadCurrent, 0)];
      downloadCurrent := downloadCurrent + 1;
    }

    /** The size of the current file asked for; when that fails the file is given up. */
    method RequestSize(net: Network) returns (request: Option<Request>)
      requires downloadCurrent < |downloads|
      modifies this
      ensures var (next, r) := Send(old(View()), old(downloadCurrent), true, 0, 8, net);
              && request == r && next.current < |next.downloads|
              && View() == (if r.Some? then next else CompleteCurrent(next))
              && output == (if r.Some? then old(output) else old(output) + [Error(old(downloadCurrent))])
      ensures |downloads| == old(|downloads|)
      ensures request.None? ==> downloadCurrent == old(downloadCurrent) + 1
    {
      hide Send;
      SendKeepsLength(View(), downloadCurrent, true, 0, 8, net);
      request := SendFileContentsRequest(downloadCurrent, true, 0, 8, net);
      if request.None? {
        downloads := downloads[downloadCurrent := downloads[downloadCurrent].(complete := true)];
        output := output + [Error(downloadCurrent)];
        downloadCurrent := downloadCurrent + 1;
      }
    }

    lemma SendKeepsLength(s: State, index: nat, sizes: bool, offset: nat, length: nat, net: Network)
      ensures var r := Send(s, index, sizes, offset, length, net).0;
              |r.downloads| == |s.downloads| && r.current == s.current
    {}

    lemma Report(done: seq<Output>, o: Output, rest: Outcome)
      ensures After(done, After([o], rest)) == After(done + [o], rest)
    {
      assert done + ([o] + rest.output) == done + [o] + rest.output;
    }

    /** The end of one file, whatever it was, and the start of the next. */
    method FinishEntry(i: nat, event: Output, net: Network) returns (request: Option<Request>, finished: bool)
      requires i < |downloads|
      modifies this
      ensures var o := Finish(old(View()), i, event, net);
              View() == o.state && output == old(output) + o.output && request == o.request && finished == o.finished
    {
      hide StartNext;
      downloads := downloads[i := downloads[i].(complete := true)];
      ghost var before := output;
      output := output + [event];
      downloadCurrent := downloadCurrent + 1;
      ghost var rest := StartNext(View(), net);
      request, finished := StartNextDownload(net);
      assert before + [event] + rest.output == before + ([event] + rest.output);
    }

    /** cb_server_file_contents_response */
    method FileContentsResponse(reply: Reply, disk: Disk, net: Network) returns (request: Option<Request>, finished: bool)
      modifies this
      ensures var o := OnReply(old(View()), reply, disk, net);
              View() == o.state && output == old(output) + o.output && request == o.request && finished == o.finished
    {
      hide StartNext, Finish, Send, SizeOf;
      assert output + [] == output;
      if !downloading || downloads == [] {
        return None, false;
      }
      var found := FindEntry(reply.streamId);
      if found.None? {
        return None, false;
      }
      var i := found.value;
      if !reply.ok {
        request, finished := FinishEntry(i, Error(i), net);
        return;
      }
      if !downloads[i].sized {
        request, finished := SizeResponse(i, reply.data, disk, net);
        return;
      }
      request, finished := RangeResponse(i, reply.data, disk, net);
    }

    method FindEntry(streamId: nat) returns (found: Option<nat>)
      ensures found == Find(downloads, streamId)
    {
      var i := 0;
      while i < |downloads|
        invariant 0 <= i <= |downloads|
        invariant forall k :: 0 <= k < i ==> downloads[k].streamId != streamId
      {
        if downloads[i].streamId == streamId {
          FindIsFirst(downloads, streamId, i);
          return Some(i);
        }
        i := i + 1;
      }
      return None;
    }

    lemma {:induction false} FindIsFirst(downloads: seq<Entry>, streamId: nat, i: nat)
      requires i < |downloads| && downloads[i].streamId == streamId
      requires forall k :: 0 <= k < i ==> downloads[k].streamId != streamId
      ensures Find(downloads, streamId) == Some(i)
    {
      if i > 0 { FindIsFirst(downloads[1..], streamId, i - 1); }
    }

    method SizeResponse(i: nat, data: bytes, disk: Disk, net: Network) returns (request: Option<Request>, finished: bool)
      requires i < |downloads|
      modifies this
      ensures var o := OnSize(old(View()), i, data, disk, net);
              View() == o.state && output == old(output) + o.output && request == o.request && finished == o.finished
    {
      hide StartNext, Finish, SizeOf;
      downloads := downloads[i := downloads[i].(total := SizeOf(data), sized := true)];
      if downloads[i].total == 0 {
        downloads := downloads[i := downloads[i].(temp := if disk.opens then Closed([]) else Absent)];
        request, finished := FinishEntry(i, Done(i, 0), net);
        return;
      }
      if !disk.opens {
        request, finished := FinishEntry(i, Error(i), net);
        return;
      }
      downloads := downloads[i := downloads[i].(temp := Open)];
      request, finished := StartNextDownload(net);
    }

    method RangeResponse(i: nat, data: bytes, disk: Disk, net: Network) returns (request: Option<Request>, finished: bool)
      requires i < |downloads|
      modifies this
      ensures var o := OnRange(old(View()), i, data, disk, net);
              View() == o.state && output == old(output) + o.output && request == o.request && finished == o.finished
    {
      hide StartNext, Finish, Send;
      if data == [] || !downloads[i].temp.Open? {
        assert output + [] == output;
        return None, false;
      }
      ghost var before := output;
      var n := Min(disk.takes, |data|);
      downloads := downloads[i := downloads[i].(received := downloads[i].received + n,
        file := downloads[i].file + data[..n])];
      var entry := downloads[i];
      output := output + [Progress(i, entry.received)];
      if entry.received >= entry.total {
        downloads := downloads[i := entry.(temp := Closed(Flushed(entry.file, disk)))];
        ghost var rest := Finish(View(), i, Done(i, entry.total), net);
        request, finished := FinishEntry(i, Done(i, entry.total), net);
        assert before + [Progress(i, entry.received)] + rest.output == before + ([Progress(i, entry.received)] + rest.output);
        return;
      }
      request := SendFileContentsRequest(i, false, entry.received, Min(entry.total - entry.received, CHUNK), net);
      finished := false;
    }

    /** cliprdr_file_request_download */
    method Download(net: Network) returns (request: Option<Request>, finished: bool)
      modifies this
      ensures var o := RequestDownload(old(View()), net);
              View() == o.state && output == old(output) + o.output && request == o.request && finished == o.finished
    {
      hide StartNext;
      if !connected || directories == [] {
        assert output + [] == output;
        return None, false;
      }
      CancelDownloads();
      downloads := seq(|directories|, _ => FRESH);
      downloadCurrent := 0;
      downloading := true;
      request, finished := StartNextDownload(net);
    }

    /** cb_server_format_list when files are offered, up to the end of the critical section it leads to. */
    method ServerOffersFiles()
      modifies this
      ensures View() == HasFiles(old(View())) && output == old(output)
    {
      pendingFgd := true;
      ServerHasFiles();
    }

    /** The critical section of cliprdr_file_server_has_files. */
    method ServerHasFiles()
      modifies this`downloads, this`downloadCurrent, this`downloading, this`directories
      ensures View() == HasFiles(old(View())).(listAwaited := old(pendingFgd))
    {
      CancelDownloads();
      directories := [];
    }

    /** cb_server_format_data_response, as far as it concerns files. */
    method FormatDataResponse(answer: FormatData)
      modifies this`pendingFgd, this`directories
      ensures View() == OnFormatData(old(View()), answer)
    {
      match answer
      case Refused =>
        pendingFgd := false;
      case Empty =>
      case Data(parsed) =>
        var isFgd := pendingFgd;
        pendingFgd := false;
        if isFgd {
          HandleFgdResponse(parsed);
        }
    }

    /** cliprdr_file_handle_fgd_response */
    method HandleFgdResponse(parsed: seq<bool>)
      modifies this`directories
      ensures directories == parsed
    {
      directories := [];
      if parsed == [] {
        return;
      }
      directories := parsed;
    }

    method ChannelConnected()
      modifies this`connected, this`pendingFgd
      ensures View() == Connect(old(View()))
    {
      pendingFgd := false;
      connected := true;
    }

    method ChannelDisconnected()
      modifies this
      ensures View() == Disconnect(old(View())) && output == old(output)
    {
      connected := false;
      CancelDownloads();
      pendingFgd := false;
    }

    /** free_downloads */
    method CancelDownloads()
      modifies this`downloads, this`downloadCurrent, this`downloading
      ensures View() == FreeDownloads(old(View()))
    {
      downloads := [];
      downloadCurrent := 0;
      downloading := false;
    }
  }
}
