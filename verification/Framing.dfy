/**
 * The stream between a worker and its parent: messages of a kind, a length and a payload.
 * Writers may be cut short and readers may get the bytes in any pieces.
 */
module Framing {
  import opened Bytes

  const MAX_PAYLOAD := 8192 * 8192 * 4 + 8

  const MSG_READY := 0
  const MSG_CONNECTED := 1
  const MSG_BITMAP_UPDATE := 2
  const MSG_DISCONNECTED := 3
  const MSG_RESIZED := 4
  const MSG_ERROR := 0xFF

  datatype Message = Message(kind: u32, payload: bytes)

  function Header(kind: u32, length: nat): (s: bytes)
    ensures |s| == 8
  {
    U32Bytes(kind) + U32Bytes(length)
  }

  /** What write_message sends for a payload in two parts. */
  function Encode(kind: u32, a: bytes, b: bytes): (r: bytes) {
    Header(kind, |a| + |b|) + (a + b)
  }

  function EncodeAll(messages: seq<Message>): (r: bytes) {
    if messages == [] then [] else Encode(messages[0].kind, messages[0].payload, []) + EncodeAll(messages[1..])
  }

  predicate Sendable(messages: seq<Message>) {
    forall i :: 0 <= i < |messages| ==> |messages[i].payload| <= MAX_PAYLOAD
  }

  datatype Outcome = Got(message: Message, rest: bytes) | End | Failure

  /** One message off the front of a stream. `broken`: the stream ends in a read error, not in its end. */
  function ReadOne(stream: bytes, broken: bool): (r: Outcome)
    ensures r.Got? ==> |r.rest| + 8 <= |stream|
  {
    if stream == [] then if broken then Failure else End
    else if |stream| < 8 then Failure
    else
      var length := U32At(stream, 4);
      if length > MAX_PAYLOAD || |stream| < 8 + length then Failure
      else Got(Message(U32At(stream, 0), stream[8..8 + length]), stream[8 + length..])
  }

  /** All messages, and whether the stream ended cleanly behind the last one. */
  function ReadAll(stream: bytes, broken: bool): (r: (seq<Message>, bool))
    decreases |stream|
  {
    match ReadOne(stream, broken)
    case End => ([], true)
    case Failure => ([], false)
    case Got(m, rest) =>
      var (ms, clean) := ReadAll(rest, broken);
      ([m] + ms, clean)
  }

  // ----- round trips

  lemma HeaderFields(kind: u32, length: u32, rest: bytes)
    ensures U32At(Header(kind, length) + rest, 0) == kind
    ensures U32At(Header(kind, length) + rest, 4) == length
  {
    U32RoundTrip(kind);
    U32RoundTrip(length);
    var s := Header(kind, length) + rest;
    assert s[..4] == U32Bytes(kind);
    assert s[4..8] == U32Bytes(length);
    assert forall i :: 0 <= i < 4 ==> s[i] == U32Bytes(kind)[i] && s[4 + i] == U32Bytes(length)[i];
  }

  /** The bytes of a message: kind and length, least significant byte first, and the payload. */
  predicate OnTheWire(s: bytes, kind: nat, payload: bytes) {
    && |s| == 8 + |payload|
    && s[0] as nat + 0x100 * s[1] as nat + 0x1_0000 * s[2] as nat + 0x100_0000 * s[3] as nat == kind
    && s[4] as nat + 0x100 * s[5] as nat + 0x1_0000 * s[6] as nat + 0x100_0000 * s[7] as nat == |payload|
    && s[8..] == payload
  }

  lemma WireFormat(kind: u32, a: bytes, b: bytes)
    requires |a| + |b| < 0x1_0000_0000
    ensures OnTheWire(Encode(kind, a, b), kind, a + b)
  {
    hide Header, U32Bytes;
    HeaderFields(kind, |a| + |b|, a + b);
  }

  /**
   * What is read off a stream: exactly the message whose bytes stand at its front, if its payload
   * fits four bytes for every pixel of the largest desktop and a header; the end exactly where
   * there is nothing more and nothing broke.
   */
  lemma ReadOneIs(stream: bytes, broken: bool, m: Message, rest: bytes)
    ensures ReadOne(stream, broken) == Got(m, rest) <==>
              && |m.payload| <= 268435464 && 8 + |m.payload| <= |stream|
              && OnTheWire(stream[..8 + |m.payload|], m.kind, m.payload) && rest == stream[8 + |m.payload|..]
    ensures ReadOne(stream, broken) == End <==> stream == [] && !broken
  {
    if 8 + |m.payload| <= |stream| {
      var front := stream[..8 + |m.payload|];
      FrontFields(stream, 8 + |m.payload|);
      assert front[8..] == stream[8..8 + |m.payload|];
    }
  }

  lemma FrontFields(stream: bytes, n: nat)
    requires 8 <= n <= |stream|
    ensures forall i :: 0 <= i < 8 ==> stream[..n][i] == stream[i]
  {}

  /** A written message is read back, its parts joined, and nothing behind it is touched. */
  lemma ReadOfEncoded(kind: u32, a: bytes, b: bytes, rest: bytes, broken: bool)
    requires |a| + |b| <= MAX_PAYLOAD
    ensures ReadOne(Encode(kind, a, b) + rest, broken) == Got(Message(kind, a + b), rest)
  {
    hide Header, U32At, U32Bytes;
    var h := Header(kind, |a| + |b|);
    var s := Encode(kind, a, b) + rest;
    Associate(h, a + b, rest);
    HeaderFields(kind, |a| + |b|, a + b + rest);
    assert s[8..8 + |a + b|] == a + b;
    assert s[8 + |a + b|..] == rest;
  }

  /** Anything strictly shorter than a message, but not empty, is an error. */
  lemma ReadOfCut(kind: u32, a: bytes, n: nat, broken: bool)
    requires |a| <= MAX_PAYLOAD && 0 < n < 8 + |a|
    ensures n <= |Encode(kind, a, [])| && ReadOne(Encode(kind, a, [])[..n], broken) == Failure
  {
    hide Header, U32At, U32Bytes;
    var s := Encode(kind, a, []);
    if n >= 8 {
      HeaderFields(kind, |a|, a + []);
      PrefixField(s, n);
    }
  }

  lemma PrefixField(s: bytes, n: nat)
    requires 8 <= n <= |s|
    ensures U32At(s[..n], 4) == U32At(s, 4)
  {}

  /** How many messages a stream cut after `n` bytes holds in full. */
  function WholeMessages(messages: seq<Message>, n: nat): (k: nat)
    ensures k <= |messages|
  {
    if messages == [] || n < 8 + |messages[0].payload| then 0
    else 1 + WholeMessages(messages[1..], n - 8 - |messages[0].payload|)
  }

  /**
   * A stream cut anywhere yields exactly the messages it holds in full, and a clean end
   * exactly when the cut falls between two messages and the reader sees the end.
   */
  lemma {:induction false} ReadOfCutStream(messages: seq<Message>, n: nat, broken: bool)
    requires Sendable(messages) && n <= |EncodeAll(messages)|
    ensures var k := WholeMessages(messages, n);
            ReadAll(EncodeAll(messages)[..n], broken)
            == (messages[..k], n == |EncodeAll(messages[..k])| && !broken)
    decreases |messages|
  {
    hide Encode, ReadOne;
    var k := WholeMessages(messages, n);
    if n == 0 {
      NothingToRead(broken);
      assert k == 0 && EncodeAll(messages[..0]) == [];
    } else {
      var m, others := messages[0], messages[1..];
      var first := Encode(m.kind, m.payload, []);
      EncodedLength(m.kind, m.payload);
      var all := EncodeAll(messages);
      assert all == first + EncodeAll(others);
      if n < |first| {
        assert all[..n] == first[..n];
        ReadOfCut(m.kind, m.payload, n, broken);
        assert k == 0 && EncodeAll(messages[..0]) == [];
      } else {
        var r := n - |first|;
        assert all[..n] == first + EncodeAll(others)[..r];
        ReadOfEncoded(m.kind, m.payload, [], EncodeAll(others)[..r], broken);
        assert m.payload + [] == m.payload;
        ReadOfCutStream(others, r, broken);
        assert messages[..k][1..] == others[..k - 1];
        assert messages[..k][0] == m;
        assert EncodeAll(messages[..k]) == first + EncodeAll(others[..k - 1]);
        assert messages[..k] == [m] + others[..k - 1];
      }
    }
  }

  lemma NothingToRead(broken: bool)
    ensures ReadAll([], broken) == ([], !broken)
  {}

  lemma EncodedLength(kind: u32, a: bytes)
    ensures |Encode(kind, a, [])| == 8 + |a|
  {}

  /** The whole stream gives all messages back. */
  lemma ReadOfWhole(messages: seq<Message>)
    requires Sendable(messages)
    ensures ReadAll(EncodeAll(messages), false) == (messages, true)
  {
    WholeIsAll(messages);
    ReadOfCutStream(messages, |EncodeAll(messages)|, false);
    assert EncodeAll(messages)[..|EncodeAll(messages)|] == EncodeAll(messages);
    assert messages[..|messages|] == messages;
  }

  lemma {:induction false} WholeIsAll(messages: seq<Message>)
    ensures WholeMessages(messages, |EncodeAll(messages)|) == |messages|
  {
    if messages != [] {
      EncodedLength(messages[0].kind, messages[0].payload);
      WholeIsAll(messages[1..]);
    }
  }
}
