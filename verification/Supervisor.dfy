/** worker.rs: the supervisor of a worker process, and how the session learns of the worker's end. */
module Supervisor {
  import opened Bytes
  import opened Framing
  import opened WorkerStream
  import opened JsonText
  import opened SerdeJson
  import opened Session

  const CLOSE_TIMEOUT := 3000

  /** What a turn of the loop finds: the child, the time, and what the channel gives within its timeout. */
  datatype Child = Running | Exited(success: bool) | Lost
  datatype Signal = Told(control: Control) | HangUp | TimedOut
  datatype Turn = Turn(child: Child, now: nat, signal: Signal, after: nat)

  /** How the loop ends: on the child's own end, or by killing it. */
  datatype Ending = Ended(success: bool) | Unwaitable | Killed | Supervising

  /** The first request to close came at least three seconds before turn `i`. */
  ghost predicate Overdue(turns: seq<Turn>, i: nat)
    requires i < |turns|
  {
    exists j :: 0 <= j < i && FirstClose(turns, j) && turns[i].now >= turns[j].after + 3000
  }

  predicate FirstClose(turns: seq<Turn>, j: nat)
    requires j < |turns|
  {
    turns[j].signal == Told(Close) && forall k :: 0 <= k < j ==> turns[k].signal != Told(Close)
  }

  /** What turn `i` alone decides. */
  ghost function Decides(turns: seq<Turn>, i: nat): (r: Ending)
    requires i < |turns|
  {
    match turns[i].child
    case Exited(success) => Ended(success)
    case Lost => Unwaitable
    case Running =>
      if Overdue(turns, i) || turns[i].signal == Told(Stop) || turns[i].signal == HangUp then Killed else Supervising
  }

  /**
   * The supervisor's loop. It stops at the first turn that decides something: only the first
   * request to close sets the deadline, later ones do not put it off.
   */
  method Supervise(turns: seq<Turn>) returns (ending: Ending, i: nat)
    ensures i <= |turns| && forall k :: 0 <= k < i ==> Decides(turns, k) == Supervising
    ensures ending == if i < |turns| then Decides(turns, i) else Supervising
    ensures i < |turns| ==> ending != Supervising
    ensures i < |turns| ==>
              match turns[i].child
              case Exited(success) => ending == Ended(success)
              case Lost => ending == Unwaitable
              case Running =>
                ending == Killed && (Overdue(turns, i) || turns[i].signal == Told(Stop) || turns[i].signal == HangUp)
    ensures forall k :: 0 <= k < i ==>
              turns[k].child == Running && !Overdue(turns, k) && turns[k].signal != Told(Stop) && turns[k].signal != HangUp
  {
    var deadline: Option<nat> := None;
    i := 0;
    while i < |turns|
      invariant 0 <= i <= |turns|
      invariant forall k :: 0 <= k < i ==> Decides(turns, k) == Supervising
      invariant forall k :: 0 <= k < i ==>
                  turns[k].child == Running && !Overdue(turns, k) && turns[k].signal != Told(Stop) && turns[k].signal != HangUp
      invariant deadline.None? ==> forall k :: 0 <= k < i ==> turns[k].signal != Told(Close)
      invariant deadline.Some? ==>
                  exists j :: 0 <= j < i && FirstClose(turns, j) && deadline.value == turns[j].after + CLOSE_TIMEOUT
    {
      var turn := turns[i];
      match turn.child {
        case Exited(success) => return Ended(success), i;
        case Lost => return Unwaitable, i;
        case Running =>
      }
      if deadline.Some? && turn.now >= deadline.value {
        return Killed, i;
      }
      assert !Overdue(turns, i);
      match turn.signal {
        case Told(Close) =>
          if deadline.None? {
            assert FirstClose(turns, i);
            deadline := Some(turn.after + CLOSE_TIMEOUT);
          }
        case Told(Stop) => return Killed, i;
        case HangUp => return Killed, i;
        case TimedOut =>
      }
      i := i + 1;
    }
    ending := Supervising;
  }

  // ----- the last events

  /** serde_json's text of an object with one text in it. */
  function TextObject(key: bytes, text: Option<bytes>): (r: bytes) {
    Render(Object([Member(key, match text case Some(s) => String(s) case None => Null)]), false, 0)
  }

  /** The events behind those the stream delivered: its failure, and then the worker's end. */
  function LastEvents(streamError: Option<bytes>, exitError: Option<bytes>): (r: seq<Event>) {
    (if streamError.Some? then [Event(MSG_ERROR, TextObject(MESSAGE, streamError), [])] else [])
    + [Event(MSG_DISCONNECTED, TextObject(ERROR, exitError), [])]
  }

  /** The two texts: of an error, and of an end without one. */
  lemma TextObjectSpelled(text: bytes)
    ensures TextObject(MESSAGE, Some(text))
         == ['{' as int, '"' as int]
            + ['m' as int, 'e' as int, 's' as int, 's' as int, 'a' as int, 'g' as int, 'e' as int]
            + ['"' as int, ':' as int] + (['"' as int] + Escape(text) + ['"' as int]) + ['}' as int]
    ensures TextObject(ERROR, None)
         == ['{' as int, '"' as int] + ['e' as int, 'r' as int, 'r' as int, 'o' as int, 'r' as int]
            + ['"' as int, ':' as int] + ['n' as int, 'u' as int, 'l' as int, 'l' as int] + ['}' as int]
  {
    hide Render, RenderString, Escape;
    PlainMessage();
    PlainError();
    OneMemberText(MESSAGE, String(text));
    OneMemberText(ERROR, Null);
    RenderedParts(text);
    Spelled(MESSAGE, [QUOTE] + Escape(text) + [QUOTE]);
    Spelled(ERROR, NULL_TEXT);
  }

  lemma PlainMessage()
    ensures RenderString(MESSAGE) == [QUOTE] + (MESSAGE + [QUOTE])
  {
    PlainText(MESSAGE);
  }

  lemma PlainError()
    ensures RenderString(ERROR) == [QUOTE] + (ERROR + [QUOTE])
  {
    PlainText(ERROR);
  }

  lemma Spelled(key: bytes, value: bytes)
    ensures [OPEN_OBJECT] + (([QUOTE] + (key + [QUOTE])) + ([COLON] + (value + []))) + [CLOSE_OBJECT]
         == [OPEN_OBJECT, QUOTE] + key + [QUOTE, COLON] + value + [CLOSE_OBJECT]
  {}

  lemma OneMemberText(key: bytes, value: Json)
    ensures Render(Object([Member(key, value)]), false, 0)
         == [OPEN_OBJECT] + (RenderString(key) + ([COLON] + (Render(value, false, 1) + []))) + [CLOSE_OBJECT]
  {
    var members := [Member(key, value)];
    assert members[1..] == [];
    MembersText(members);
    hide RenderString, RenderMembers;
  }

  lemma {:induction false} MembersText(members: seq<Member>)
    requires |members| == 1
    ensures RenderMembers(members, false, 1)
         == RenderString(members[0].key) + ([COLON] + (Render(members[0].value, false, 1) + []))
  {
    hide RenderString, Render;
    assert members[1..] == [] && RenderMembers([], false, 1) == [];
  }

  lemma RenderedParts(text: bytes)
    ensures Render(String(text), false, 1) == [QUOTE] + Escape(text) + [QUOTE]
    ensures Render(Null, false, 1) == NULL_TEXT
  {
    hide Escape;
  }

  lemma TextArrives(key: bytes, text: Option<bytes>)
    requires (key == MESSAGE || key == ERROR) && (text.Some? ==> 0 !in text.value)
    ensures TextField(TextObject(key, text), key) == text
  {
    hide Render, FromSlice, Printable, Nesting;
    var value := match text case Some(s) => String(s) case None => Null;
    OneMemberObject(key, value);
    ObjectArrives(Object([Member(key, value)]));
  }

  lemma OneMemberObject(key: bytes, value: Json)
    requires 0 !in key && (value == Null || (value.String? && 0 !in value.text))
    ensures Printable(Object([Member(key, value)])) && Nesting(Object([Member(key, value)])) == 1
  {
    var members := [Member(key, value)];
    assert members[1..] == [];
    assert NestingOfMembers(members) == Max(Nesting(value), NestingOfMembers([]));
    assert PrintableMembers(members) <==> 0 !in key && Printable(value) && PrintableMembers([]);
  }

  /**
   * However a worker ends, its session ends with it: with the failure of the stream if that
   * failed, else with the error it had, else with what the exit says.
   */
  lemma WorkerEndIsReported(s: State, streamError: Option<bytes>, exitError: Option<bytes>)
    requires Valid(s) && !s.disconnected
    requires streamError.Some? ==> 0 !in streamError.value
    requires exitError.Some? ==> 0 !in exitError.value
    ensures var r := Run(s, Natives(LastEvents(streamError, exitError)));
            && r.disconnected && r.framebuffer == []
            && r.error == (if streamError.Some? then streamError else if s.error.Some? then s.error else exitError)
            && CheckConnected(r) == (if r.error.Some? then Failed(r.error.value) else Closed)
  {
    hide TextField, TextObject, Valid, ApplyBitmap, Resized;
    TextArrives(MESSAGE, streamError);
    TextArrives(ERROR, exitError);
    var last := Native(Event(MSG_DISCONNECTED, TextObject(ERROR, exitError), []));
    if streamError.Some? {
      var first := Native(Event(MSG_ERROR, TextObject(MESSAGE, streamError), []));
      assert Natives(LastEvents(streamError, exitError)) == [first, last];
      ActKeepsValid(s, first);
      ActKeepsValid(Act(s, first), last);
      assert [first, last][1..] == [last] && [last][1..] == [];
      assert Run(s, [first, last]) == Run(Act(s, first), [last]);
      assert Run(Act(s, first), [last]) == Run(Act(Act(s, first), last), []);
    } else {
      assert Natives(LastEvents(streamError, exitError)) == [last];
      ActKeepsValid(s, last);
      assert [last][1..] == [];
      assert Run(s, [last]) == Run(Act(s, last), []);
    }
  }
}
