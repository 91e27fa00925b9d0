/** read_message, read_events and write_message over readers and writers that work piecemeal. */
module WorkerStream {
  import opened Bytes
  import opened Framing

  datatype ReadResult = Bytes(n: nat) | Interrupted | IoError

  /** The reading end of a pipe: it gives what it likes of what there is, and may be interrupted. */
  class Reader {
    const data: bytes
    /** Whether reading past the data fails instead of ending. */
    const broken: bool
    var pos: nat
    /** How often it will still be interrupted. */
    var interrupts: nat

    constructor (data: bytes, broken: bool, interrupts: nat)
      ensures this.data == data && this.broken == broken && pos == 0
    {
      this.data, this.broken, this.pos, this.interrupts := data, broken, 0, interrupts;
    }

    ghost function Left(): (r: bytes)
      requires pos <= |data|
      reads this
    {
      data[pos..]
    }

    method Read(buf: array<byte>, from: nat, end: nat) returns (r: ReadResult)
      requires from < end <= buf.Length && pos <= |data|
      modifies this`pos, this`interrupts, buf
      ensures old(pos) <= pos <= |data|
      ensures match r
              case Bytes(n) =>
                && n <= end - from && pos == old(pos) + n && interrupts == old(interrupts)
                && (n == 0 ==> old(Left()) == [] && !broken)
                && buf[..from + n] == old(buf[..from]) + data[old(pos)..pos]
              case Interrupted => pos == old(pos) && interrupts < old(interrupts) && buf[..] == old(buf[..])
              case IoError => pos == old(pos) && old(Left()) == [] && broken
    {
      var interrupted: bool := *;
      if interrupted && interrupts > 0 {
        interrupts := interrupts - 1;
        return Interrupted;
      }
      if pos == |data| {
        return if broken then IoError else Bytes(0);
      }
      var n :| 1 <= n <= end - from && n <= |data| - pos;
      forall i | 0 <= i < n {
        buf[from + i] := data[pos + i];
      }
      pos := pos + n;
      assert buf[from..from + n] == data[pos - n..pos];
      assert buf[..from + n] == buf[..from] + buf[from..from + n];
      return Bytes(n);
    }

    /** Fills the buffer from `from` to `end`, or fails when the stream does not have that much. */
    method ReadExact(buf: array<byte>, from: nat, end: nat) returns (ok: bool)
      requires from <= end <= buf.Length && pos <= |data|
      modifies this`pos, this`interrupts, buf
      ensures old(pos) <= pos <= |data|
      ensures ok <==> end - from <= |old(Left())|
      ensures ok ==> pos == old(pos) + (end - from) && buf[..end] == old(buf[..from]) + data[old(pos)..pos]
    {
      var at := from;
      assert data[pos..pos] == [];
      while at < end
        invariant from <= at <= end
        invariant old(pos) <= pos <= |data| && pos - old(pos) == at - from
        invariant buf[..at] == old(buf[..from]) + data[old(pos)..pos]
        decreases end - at, interrupts
      {
        ghost var before := pos;
        var r := Read(buf, at, end);
        match r
        case Bytes(n) =>
          if n == 0 {
            return false;
          }
          at := at + n;
          assert data[old(pos)..pos] == data[old(pos)..before] + data[before..pos];
        case Interrupted =>
          assert buf[..at] == buf[..][..at];
        case IoError =>
          return false;
      }
      ok := true;
    }
  }

  /** Vec::resize */
  method Resize(v: array<byte>, length: nat) returns (r: array<byte>)
    ensures r.Length == length && (r == v || fresh(r))
  {
    if v.Length == length {
      return v;
    }
    r := new byte[length](_ => 0);
    forall i | 0 <= i < length && i < v.Length {
      r[i] := v[i];
    }
  }

  datatype Received = Kind(kind: u32) | EndOfStream | StreamError

  /** The first byte of a message: read, found missing at the end of the stream, or failed. */
  method ReadFirst(reader: Reader, header: array<byte>) returns (first: ReadResult)
    requires reader.pos <= |reader.data| && header.Length == 8
    modifies reader`pos, reader`interrupts, header
    ensures reader.pos <= |reader.data|
    ensures match first
            case Bytes(n) =>
              if n == 0 then old(reader.Left()) == [] && !reader.broken
              else n == 1 && reader.pos == old(reader.pos) + 1 && header[..1] == reader.data[old(reader.pos)..reader.pos]
            case Interrupted => false
            case IoError => old(reader.Left()) == [] && reader.broken
  {
    first := Interrupted;
    while first.Interrupted?
      invariant reader.pos <= |reader.data|
      invariant match first
                case Bytes(n) =>
                  if n == 0 then old(reader.Left()) == [] && !reader.broken
                  else n == 1 && reader.pos == old(reader.pos) + 1 && header[..1] == reader.data[old(reader.pos)..reader.pos]
                case Interrupted => reader.pos == old(reader.pos)
                case IoError => old(reader.Left()) == [] && reader.broken
      decreases first.Interrupted?, reader.interrupts
    {
      first := reader.Read(header, 0, 1);
    }
  }

  /** read_message: the kind, and the payload in the buffer handed on from call to call. */
  method ReadMessage(reader: Reader, buffer: array<byte>) returns (r: Received, payload: array<byte>)
    requires reader.pos <= |reader.data|
    modifies reader`pos, reader`interrupts, buffer
    ensures reader.pos <= |reader.data| && (payload == buffer || fresh(payload))
    ensures match ReadOne(old(reader.Left()), reader.broken)
            case Got(m, rest) => r == Kind(m.kind) && payload[..] == m.payload && reader.Left() == rest
            case End => r == EndOfStream
            case Failure => r == StreamError
  {
    hide U32At;
    payload := buffer;
    var header := new byte[8];
    var first := ReadFirst(reader, header);
    if first.IoError? {
      return StreamError, payload;
    }
    if first.n == 0 {
      return EndOfStream, payload;
    }
    ghost var stream, start := old(reader.Left()), old(reader.pos);
    var ok := reader.ReadExact(header, 1, 8);
    if !ok {
      return StreamError, payload;
    }
    assert header[..] == header[..8] == stream[..8];
    HeaderOnly(stream, header[..]);
    r, payload := ReadPayload(reader, payload, U32At(header[..], 0), U32At(header[..], 4), stream, start);
  }

  /** The part of read_message behind the header. */
  method ReadPayload(reader: Reader, buffer: array<byte>, kind: u32, length: nat, ghost stream: bytes, ghost start: nat)
    returns (r: Received, payload: array<byte>)
    requires start + 8 == reader.pos <= |reader.data| && stream == reader.data[start..]
    requires kind == U32At(stream, 0) && length == U32At(stream, 4)
    modifies reader`pos, reader`interrupts, buffer
    ensures reader.pos <= |reader.data| && (payload == buffer || fresh(payload))
    ensures match ReadOne(stream, reader.broken)
            case Got(m, rest) => r == Kind(m.kind) && payload[..] == m.payload && reader.Left() == rest
            case End => false
            case Failure => r == StreamError
  {
    hide U32At;
    payload := buffer;
    if length > MAX_PAYLOAD {
      return StreamError, payload;
    }
    payload := Resize(payload, length);
    var ok := reader.ReadExact(payload, 0, length);
    if !ok {
      return StreamError, payload;
    }
    assert payload[..] == payload[..length] == reader.data[start + 8..reader.pos];
    assert stream[8..8 + length] == reader.data[start + 8..start + 8 + length];
    return Kind(kind), payload;
  }

  lemma HeaderOnly(stream: bytes, header: bytes)
    requires |stream| >= 8 && header == stream[..8]
    ensures U32At(header, 0) == U32At(stream, 0) && U32At(header, 4) == U32At(stream, 4)
    ensures U32At(stream, 0) < 0x1_0000_0000
  {}

  // ----- events

  /** What the handler is called with. */
  datatype Event = Event(kind: u32, a: bytes, b: bytes)

  datatype Control = Close | Stop

  /** How read_events splits a payload: a bitmap's header from its pixels. */
  function Split(m: Message): (r: Option<Event>)
    ensures m.kind != 2 ==> r == Some(Event(m.kind, m.payload, []))
    ensures m.kind == 2 ==> (r.Some? <==> |m.payload| >= 8)
    ensures m.kind == 2 && r.Some? ==> r.value.kind == 2 && |r.value.a| == 8 && r.value.a + r.value.b == m.payload
  {
    if m.kind == MSG_BITMAP_UPDATE then
      if |m.payload| < 8 then None else Some(Event(m.kind, m.payload[..8], m.payload[8..]))
    else Some(Event(m.kind, m.payload, []))
  }

  /** Kind 3 says that the worker has disconnected, kind 255 reports an error. */
  function ControlOf(kind: u32): (r: seq<Control>)
    ensures r == [Stop] <==> kind == 3
    ensures r == [Close] <==> kind == 255
    ensures r == [] <==> kind != 3 && kind != 255
  {
    if kind == MSG_DISCONNECTED then [Stop] else if kind == MSG_ERROR then [Close] else []
  }

  /** The events a stream delivers, and whether it ended cleanly. */
  function Deliver(stream: bytes, broken: bool): (r: (seq<Event>, bool))
    decreases |stream|
  {
    match ReadOne(stream, broken)
    case End => ([], true)
    case Failure => ([], false)
    case Got(m, rest) =>
      match Split(m)
      case None => ([], false)
      case Some(e) =>
        var (es, clean) := Deliver(rest, broken);
        ([e] + es, clean)
  }

  function Controls(events: seq<Event>): (r: seq<Control>) {
    if events == [] then [] else ControlOf(events[0].kind) + Controls(events[1..])
  }

  lemma {:induction false} ControlsAppend(events: seq<Event>, e: Event)
    ensures Controls(events + [e]) == Controls(events) + ControlOf(e.kind)
  {
    if events == [] {
      assert events + [e] == [e] && [e][1..] == [];
    } else {
      assert (events + [e])[1..] == events[1..] + [e];
      ControlsAppend(events[1..], e);
    }
  }

  /** Events that were handled before others. */
  function Behind(events: seq<Event>, r: (seq<Event>, bool)): (result: (seq<Event>, bool)) {
    (events + r.0, r.1)
  }

  lemma BehindNothing(r: (seq<Event>, bool))
    ensures Behind([], r) == r
  {
    assert [] + r.0 == r.0;
  }

  lemma NothingBehind(events: seq<Event>, clean: bool)
    ensures Behind(events, ([], clean)) == (events, clean)
  {
    assert events + [] == events;
  }

  lemma BehindTwice(events: seq<Event>, e: Event, r: (seq<Event>, bool))
    ensures Behind(events, Behind([e], r)) == Behind(events + [e], r)
  {
    assert events + ([e] + r.0) == events + [e] + r.0;
  }

  /** Every message of a well-formed stream becomes one event. */
  predicate Deliverable(messages: seq<Message>) {
    forall i :: 0 <= i < |messages| ==> |messages[i].payload| <= MAX_PAYLOAD && Split(messages[i]).Some?
  }

  function EventsOf(messages: seq<Message>): (events: seq<Event>)
    requires Deliverable(messages)
    ensures |events| == |messages|
  {
    if messages == [] then [] else [Split(messages[0]).value] + EventsOf(messages[1..])
  }

  /** A stream cut anywhere delivers the events of the messages it holds in full. */
  lemma {:induction false} DeliverOfCutStream(messages: seq<Message>, n: nat, broken: bool)
    requires Deliverable(messages) && n <= |EncodeAll(messages)|
    ensures var k := WholeMessages(messages, n);
            Deliver(EncodeAll(messages)[..n], broken)
            == (EventsOf(messages)[..k], n == |EncodeAll(messages[..k])| && !broken)
  {
    ReadOfCutStream(messages, n, broken);
    DeliverIsReadAll(EncodeAll(messages)[..n], broken, messages[..WholeMessages(messages, n)]);
    EventsOfPrefix(messages, WholeMessages(messages, n));
  }

  lemma {:induction false} DeliverIsReadAll(stream: bytes, broken: bool, messages: seq<Message>)
    requires Deliverable(messages) && ReadAll(stream, broken).0 == messages
    ensures Deliver(stream, broken) == (EventsOf(messages), ReadAll(stream, broken).1)
    decreases |stream|
  {
    hide ReadOne;
    match ReadOne(stream, broken)
    case End =>
    case Failure =>
    case Got(m, rest) =>
      assert messages[0] == m;
      assert messages[1..] == ReadAll(rest, broken).0;
      DeliverIsReadAll(rest, broken, messages[1..]);
  }

  lemma {:induction false} EventsOfPrefix(messages: seq<Message>, k: nat)
    requires Deliverable(messages) && k <= |messages|
    ensures EventsOf(messages[..k]) == EventsOf(messages)[..k]
    decreases |messages|
  {
    if k > 0 {
      EventsOfPrefix(messages[1..], k - 1);
      assert messages[..k][1..] == messages[1..][..k - 1];
      assert messages[..k][0] == messages[0];
    }
  }

  /** read_events: what the handler saw and what went to the supervisor. */
  method ReadEvents(reader: Reader) returns (ok: bool, handled: seq<Event>, controls: seq<Control>)
    requires reader.pos == 0
    modifies reader`pos, reader`interrupts
    ensures (handled, ok) == Deliver(reader.data, reader.broken)
    ensures controls == Controls(handled)
  {
    hide ReadOne;
    handled, controls := [], [];
    ghost var whole := Deliver(reader.data, reader.broken);
    var payload := new byte[0];
    assert reader.data[0..] == reader.data;
    BehindNothing(whole);
    while true
      invariant reader.pos <= |reader.data| && fresh(payload)
      invariant whole == Behind(handled, Deliver(reader.Left(), reader.broken))
      invariant controls == Controls(handled)
      decreases |reader.data| - reader.pos
    {
      ghost var left := reader.Left();
      var r;
      r, payload := ReadMessage(reader, payload);
      match r
      case StreamError =>
        NothingBehind(handled, false);
        return false, handled, controls;
      case EndOfStream =>
        NothingBehind(handled, true);
        return true, handled, controls;
      case Kind(kind) =>
        var event;
        if kind == MSG_BITMAP_UPDATE {
          if payload.Length < 8 {
            NothingBehind(handled, false);
            return false, handled, controls;
          }
          event := Event(kind, payload[..8], payload[8..]);
        } else {
          event := Event(kind, payload[..], []);
        }
        assert Deliver(left, reader.broken) == Behind([event], Deliver(reader.Left(), reader.broken));
        BehindTwice(handled, event, Deliver(reader.Left(), reader.broken));
        ControlsAppend(handled, event);
        handled := handled + [event];
        if kind == MSG_DISCONNECTED {
          controls := controls + [Stop];
        } else if kind == MSG_ERROR {
          controls := controls + [Close];
        }
    }
  }

  // ----- writing

  /** The writing end: it takes everything, or a part and fails. */
  class Writer {
    var written: bytes

    constructor ()
      ensures written == []
    {
      written := [];
    }

    method WriteAll(s: bytes) returns (ok: bool)
      modifies this
      ensures Partly(old(written), written, s) && (ok ==> written == old(written) + s)
    {
      var n :| 0 <= n <= |s|;
      written := written + s[..n];
      ok := n == |s|;
    }
  }

  /** Some of `s`, from its beginning. */
  ghost predicate Partly(before: bytes, after: bytes, s: bytes) {
    exists n :: 0 <= n <= |s| && after == before + s[..n]
  }

  /**
   * write_message: the whole message, or, when it is too large, nothing, or, when the writer
   * fails, a message cut short.
   */
  method WriteMessage(writer: Writer, kind: u32, a: bytes, b: bytes) returns (ok: bool)
    modifies writer
    ensures ok ==> |a| + |b| <= MAX_PAYLOAD && writer.written == old(writer.written) + Encode(kind, a, b)
    ensures |a| + |b| > MAX_PAYLOAD ==> writer.written == old(writer.written)
    ensures Partly(old(writer.written), writer.written, Encode(kind, a, b))
  {
    var length := |a| + |b|;
    ghost var w, s := writer.written, Encode(kind, a, b);
    var k, n := U32Bytes(kind), U32Bytes(length);
    assert s == k + n + a + b;
    assert w + s[..0] == w;
    if length > MAX_PAYLOAD {
      return false;
    }
    ok := writer.WriteAll(k);
    PartOf(w, w, writer.written, [], k, n + a + b, s);
    if !ok {
      return;
    }
    ok := writer.WriteAll(n);
    PartOf(w, w + k, writer.written, k, n, a + b, s);
    if !ok {
      return;
    }
    ok := writer.WriteAll(a);
    PartOf(w, w + k + n, writer.written, k + n, a, b, s);
    if !ok {
      return;
    }
    ok := writer.WriteAll(b);
    PartOf(w, w + k + n + a, writer.written, k + n + a, b, [], s);
    if ok {
      assert w + k + n + a + b == w + s;
    }
  }

  lemma PartOf(w: bytes, before: bytes, after: bytes, done: bytes, s: bytes, rest: bytes, whole: bytes)
    requires Partly(before, after, s) && before == w + done
    requires whole == done + s + rest
    ensures Partly(w, after, whole)
  {
    var n :| 0 <= n <= |s| && after == before + s[..n];
    assert whole[..|done| + n] == done + s[..n];
    assert after == w + whole[..|done| + n];
  }
}
