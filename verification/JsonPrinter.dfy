/**
 * The printer: a buffer that grows, and an offset behind which the next piece is written.
 * Its text is proved to be the pure rendering, and it fails exactly when the rendering and
 * two more bytes do not fit.
 */
module JsonPrinter {
  import opened Bytes
  import opened Decimal
  import opened JsonText
  import opened JsonNode

  class PrintBuffer {
    var buffer: array<byte>
    var length: nat
    var offset: nat
    var depth: nat
    const noalloc: bool
    const format: bool
    /** Whether the hooks have a `reallocate`. */
    const reallocates: bool

    /** print and cJSON_PrintBuffered start with `length` bytes, cJSON_PrintPreallocated may not add to them. */
    constructor (buffer: array<byte>, noalloc: bool, format: bool, reallocates: bool)
      requires buffer.Length <= INT_MAX && (reallocates || noalloc || buffer.Length > 0)
      ensures Valid() && Text() == [] && offset == 0 && depth == 0
      ensures this.buffer == buffer && length == buffer.Length
      ensures this.noalloc == noalloc && this.format == format
    {
      this.buffer, this.length := buffer, buffer.Length;
      this.noalloc, this.format, this.reallocates := noalloc, format, reallocates;
      offset, depth := 0, 0;
    }

    ghost predicate Valid()
      reads this
    {
      && length == buffer.Length <= INT_MAX
      && (if length == 0 then offset == 0 else offset < length)
      && (reallocates || noalloc || length > 0)
    }

    /** How large the buffer may become. */
    ghost function Limit(): (r: nat)
      reads this
    {
      if noalloc then length else INT_MAX
    }

    /** Everything before the offset. */
    ghost function Text(): (r: bytes)
      requires Valid()
      reads this, buffer
    {
      buffer[..offset]
    }

    /** `s` was written behind `text`, zero terminated; the offset may lag behind. */
    ghost predicate Wrote(text: bytes, s: bytes)
      reads this, buffer
    {
      && Valid()
      && |text| <= offset <= |text| + |s| < length
      && buffer[..|text| + |s|] == text + s
      && buffer[|text| + |s|] == 0
    }

    /** What is written behind a piece already passed completes that piece. */
    lemma WroteBehind(text: bytes, s: bytes, t: bytes)
      requires Wrote(text + s, t)
      ensures Wrote(text, s + t)
    {
      Associate(text, s, t);
    }

    /** Makes room for `needed` bytes and a terminator. */
    method Ensure(needed: nat) returns (ok: bool)
      requires Valid()
      modifies this`buffer, this`length
      ensures Valid() && (buffer == old(buffer) || (!noalloc && fresh(buffer)))
      ensures Limit() == old(Limit()) && Text() == old(Text())
      ensures ok <==> offset + needed + 1 <= Limit()
      ensures ok ==> offset + needed + 1 <= length
    {
      if needed > INT_MAX {
        return false;
      }
      var total := needed + offset + 1;
      if total <= length {
        return true;
      }
      if noalloc {
        return false;
      }
      var newsize;
      if total > INT_MAX / 2 {
        if total <= INT_MAX {
          newsize := INT_MAX;
        } else {
          return false;
        }
      } else {
        newsize := total * 2;
      }
      var newbuffer := new byte[newsize];
      var kept := if reallocates then length else offset + 1;
      forall i | 0 <= i < kept {
        newbuffer[i] := buffer[i];
      }
      assert newbuffer[..offset] == buffer[..offset];
      length := newsize;
      buffer := newbuffer;
      ok := true;
    }

    /** Moves the offset over what was just written: strlen from the offset on. */
    method UpdateOffset(ghost text: bytes, ghost s: bytes)
      requires Wrote(text, s) && 0 !in s
      modifies this`offset
      ensures Valid() && Text() == text + s
    {
      forall k | |text| <= k < |text| + |s| ensures buffer[k] != 0 {
        assert buffer[..|text| + |s|][k] == (text + s)[k] == s[k - |text|];
        assert s[k - |text|] in s;
      }
      var i := offset;
      while buffer[i] != 0
        invariant offset <= i <= |text| + |s|
        decreases |text| + |s| - i
      {
        i := i + 1;
      }
      offset := i;
    }

    /** Stores `s` behind the offset. */
    method Store(s: bytes)
      requires Valid() && offset + |s| < length
      modifies buffer
      ensures buffer[..offset + |s|] == old(Text()) + s
    {
      forall i | 0 <= i < |s| {
        buffer[offset + i] := s[i];
      }
      assert buffer[..offset + |s|] == buffer[..offset] + buffer[offset..offset + |s|];
      assert buffer[offset..offset + |s|] == s;
    }

    /** strcpy of `s` behind the offset. */
    method StoreTerminated(s: bytes)
      requires Valid() && offset + |s| < length
      modifies buffer
      ensures Wrote(old(Text()), s)
    {
      Store(s);
      ghost var written := buffer[..offset + |s|];
      buffer[offset + |s|] := 0;
      assert buffer[..offset + |s|] == written;
    }

    /** Makes room for `needed` bytes, stores `s` and moves the offset behind it. */
    method Append(s: bytes, needed: nat) returns (ok: bool)
      requires Valid() && |s| <= needed
      modifies this`buffer, this`length, this`offset, buffer
      ensures Limit() == old(Limit()) && (buffer == old(buffer) || (!noalloc && fresh(buffer)))
      ensures ok <==> old(offset) + needed + 1 <= Limit()
      ensures ok ==> Valid() && Text() == old(Text()) + s
    {
      ok := Ensure(needed);
      if ok {
        if needed > |s| {
          StoreTerminated(s);
        } else {
          Store(s);
        }
        offset := offset + |s|;
      }
    }

    /** print_number for a number that is its own valueint. */
    method PrintNumber(item: Node) returns (ok: bool)
      requires Valid() && item.valuedouble == ValueInt(item.valuedouble) as real
      modifies this`buffer, this`length, this`offset, buffer
      ensures Limit() == old(Limit()) && (buffer == old(buffer) || (!noalloc && fresh(buffer)))
      ensures var s := DecimalInt(ValueInt(item.valuedouble));
              (ok <==> old(offset) + |s| + 2 <= Limit()) && (ok ==> Wrote(old(Text()), s))
    {
      var digits := DecimalInt(ValueInt(item.valuedouble));
      ok := Ensure(|digits| + 1);
      if !ok {
        return;
      }
      StoreTerminated(digits);
      offset := offset + |digits|;
    }

    /** The counting loop of print_string_ptr: how many bytes more than the input it writes. */
    method CountEscapes(input: bytes) returns (escapes: nat)
      ensures |input| + escapes == |Escape(input)|
    {
      escapes := 0;
      var i := 0;
      while i < |input|
        invariant i <= |input|
        invariant i + escapes + |Escape(input[i..])| == |Escape(input)|
      {
        var b := input[i];
        assert input[i..][1..] == input[i + 1..];
        if b == QUOTE || b == BACKSLASH || b == 8 || b == 12 || b == 10 || b == 13 || b == 9 {
          escapes := escapes + 1;
        } else if b < 32 {
          escapes := escapes + 5;
        }
        i := i + 1;
      }
    }

    /** One turn of its copying loop: writes `b` at `at`, with what sprintf leaves behind it. */
    method CopyEscaped(b: byte, at: nat) returns (after: nat)
      requires at + |EscapeByte(b)| < buffer.Length
      modifies buffer
      ensures after == at + |EscapeByte(b)|
      ensures buffer[..after] == old(buffer[..at]) + EscapeByte(b)
    {
      if b > 31 && b != QUOTE && b != BACKSLASH {
        buffer[at] := b;
        after := at + 1;
      } else {
        buffer[at] := BACKSLASH;
        after := CopyEscapeLetter(b, at + 1);
      }
    }

    /** What follows the backslash. */
    method CopyEscapeLetter(b: byte, at: nat) returns (after: nat)
      requires EscapeByte(b)[0] == BACKSLASH && |EscapeByte(b)| > 1 && at + |EscapeByte(b)| - 1 < buffer.Length
      modifies buffer
      ensures after == at + |EscapeByte(b)| - 1
      ensures buffer[..after] == old(buffer[..at]) + EscapeByte(b)[1..]
    {
      after := at + 1;
      if b == BACKSLASH {
        buffer[at] := BACKSLASH;
      } else if b == QUOTE {
        buffer[at] := QUOTE;
      } else if b == 8 {
        buffer[at] := 98;
      } else if b == 12 {
        buffer[at] := 102;
      } else if b == 10 {
        buffer[at] := 110;
      } else if b == 13 {
        buffer[at] := 114;
      } else if b == 9 {
        buffer[at] := 116;
      } else {
        PrintHex(b, at);
        after := at + 5;
      }
    }

    /** sprintf("u%04x"): five characters and a terminator. */
    method PrintHex(b: byte, at: nat)
      requires at + 5 < buffer.Length
      modifies buffer
      ensures buffer[..at + 5] == old(buffer[..at]) + [LETTER_U, 48, 48, HexChar(b / 16), HexChar(b % 16)]
    {
      buffer[at], buffer[at + 1], buffer[at + 2] := LETTER_U, 48, 48;
      buffer[at + 3], buffer[at + 4], buffer[at + 5] := HexChar(b / 16), HexChar(b % 16), 0;
    }

    /** print_string_ptr. */
    method PrintString(input: Option<bytes>) returns (ok: bool)
      requires Valid()
      modifies this`buffer, this`length, buffer
      ensures Limit() == old(Limit()) && (buffer == old(buffer) || (!noalloc && fresh(buffer)))
      ensures var s := RenderString(if input.Some? then input.value else []);
              (ok <==> old(offset) + |s| + 2 <= Limit()) && (ok ==> Wrote(old(Text()), s))
    {
      if input.None? {
        ok := Ensure(3);
        if ok {
          StoreTerminated([QUOTE, QUOTE]);
          assert RenderString([]) == [QUOTE, QUOTE];
        }
        return;
      }
      var s := input.value;
      var escapes := CountEscapes(s);
      var outputLength := |s| + escapes;
      ok := Ensure(outputLength + 3);
      if !ok {
        return;
      }
      ghost var text := Text();
      if escapes == 0 {
        NoEscapes(s);
        StoreTerminated([QUOTE] + (s + [QUOTE]));
        return;
      }
      CopyString(s, outputLength);
    }

    /** The copying loop of print_string_ptr, from `start` on. */
    method CopyAll(s: bytes, start: nat)
      requires start + |Escape(s)| < buffer.Length
      modifies buffer
      ensures buffer[..start + |Escape(s)|] == old(buffer[..start]) + Escape(s)
    {
      hide Escape, EscapeByte;
      ghost var whole := buffer[..start] + Escape(s);
      var at: nat := start;
      var i := 0;
      assert s[0..] == s;
      while i < |s|
        invariant i <= |s|
        invariant at + |Escape(s[i..])| == start + |Escape(s)|
        invariant buffer[..at] + Escape(s[i..]) == whole
      {
        EscapeSplit(s, i);
        Associate(buffer[..at], EscapeByte(s[i]), Escape(s[i + 1..]));
        at := CopyEscaped(s[i], at);
        i := i + 1;
      }
      EscapeEnd(s[i..]);
      assert buffer[..at] + [] == buffer[..at];
    }

    /** The copying part of print_string_ptr. */
    method CopyString(s: bytes, outputLength: nat)
      requires Valid() && outputLength == |Escape(s)| && offset + outputLength + 3 < length
      modifies buffer
      ensures Wrote(old(Text()), RenderString(s))
    {
      hide Escape;
      ghost var text, e := Text(), Escape(s);
      buffer[offset] := QUOTE;
      assert buffer[..offset + 1] == text + [QUOTE];
      CopyAll(s, offset + 1);
      ghost var written := buffer[..offset + outputLength + 1];
      buffer[offset + outputLength + 1] := QUOTE;
      buffer[offset + outputLength + 2] := 0;
      assert buffer[..offset + outputLength + 1] == written;
      assert buffer[..offset + outputLength + 2] == written + [QUOTE];
      Associate(text, [QUOTE], e);
      Associate(text, [QUOTE] + e, [QUOTE]);
      Associate([QUOTE], e, [QUOTE]);
    }

    /** The text in an array of its own, zero terminated. */
    method Extract() returns (printed: array<byte>)
      requires Valid()
      ensures fresh(printed) && printed[..] == Text() + [0]
    {
      printed := new byte[offset + 1];
      forall i | 0 <= i < offset {
        printed[i] := buffer[i];
      }
      printed[offset] := 0;
      assert printed[..offset] == Text();
    }

    /** print_value, for the tree `t` that the node is. */
    method PrintValue(item: Node, ghost t: Json) returns (ok: bool)
      requires Valid() && IsTree(item, t) && Printable(t)
      modifies this`buffer, this`length, this`offset, this`depth, buffer
      ensures Limit() == old(Limit()) && (ok ==> depth == old(depth))
      ensures buffer == old(buffer) || (!noalloc && fresh(buffer))
      ensures var s := Render(t, format, old(depth));
              (ok <==> old(offset) + |s| + 2 <= Limit()) && (ok ==> Wrote(old(Text()), s))
      decreases t, 3
    {
      hide Wrote;
      match item.kind
      case NullKind =>
        ok := Ensure(5);
        if ok { StoreTerminated(NULL_TEXT); }
      case FalseKind =>
        ok := Ensure(6);
        if ok { StoreTerminated(FALSE_TEXT); }
      case TrueKind =>
        ok := Ensure(5);
        if ok { StoreTerminated(TRUE_TEXT); }
      case NumberKind =>
        ok := PrintNumber(item);
      case StringKind =>
        ok := PrintString(item.valuestring);
      case ArrayKind =>
        ok := PrintArray(item, t);
      case ObjectKind =>
        ok := PrintObject(item, t);
      case InvalidKind =>
        ok := false;
    }

    method PrintArray(item: Node, ghost t: Json) returns (ok: bool)
      requires Valid() && t.Array? && IsTree(item, t) && Printable(t)
      modifies this`buffer, this`length, this`offset, this`depth, buffer
      ensures Limit() == old(Limit()) && (ok ==> depth == old(depth))
      ensures buffer == old(buffer) || (!noalloc && fresh(buffer))
      ensures var s := Render(t, format, old(depth));
              (ok <==> old(offset) + |s| + 2 <= Limit()) && (ok ==> Wrote(old(Text()), s))
      decreases t, 2
    {
      hide IsTree, RenderItems, Wrote, Render;
      ghost var text, items := Text(), RenderItems(t.items, format, depth + 1);
      ArrayText(t, format, depth);
      ok := Append([OPEN_ARRAY], 1);
      if !ok {
        return;
      }
      depth := depth + 1;
      ok := PrintElements(item, t);
      if !ok {
        return;
      }
      ok := CloseArray();
      if !ok {
        return;
      }
      WroteBehind(text + [OPEN_ARRAY], items, [CLOSE_ARRAY]);
      WroteBehind(text, [OPEN_ARRAY], items + [CLOSE_ARRAY]);
    }

    /** The closing bracket of an array. */
    method CloseArray() returns (ok: bool)
      requires Valid() && depth > 0
      modifies this`buffer, this`length, this`depth, buffer
      ensures Limit() == old(Limit()) && (ok ==> depth == old(depth) - 1)
      ensures buffer == old(buffer) || (!noalloc && fresh(buffer))
      ensures (ok <==> offset + 3 <= Limit()) && (ok ==> Wrote(old(Text()), [CLOSE_ARRAY]))
    {
      ok := Ensure(2);
      if !ok {
        return;
      }
      StoreTerminated([CLOSE_ARRAY]);
      depth := depth - 1;
    }

    /** The loop of print_array. */
    method PrintElements(item: Node, ghost t: Json) returns (ok: bool)
      requires Valid() && t.Array? && IsTree(item, t) && PrintableItems(t.items)
      modifies this`buffer, this`length, this`offset, this`depth, buffer
      ensures Limit() == old(Limit()) && (ok ==> depth == old(depth))
      ensures buffer == old(buffer) || (!noalloc && fresh(buffer))
      ensures var s := RenderItems(t.items, format, old(depth));
              if ok then Valid() && Text() == old(Text()) + s else old(offset) + |s| + 2 > Limit()
      decreases t, 1
    {
      hide IsTree, RenderItems, Printable;
      ghost var whole := Text() + RenderItems(t.items, format, depth);
      var current := item.child;
      ghost var i := 0;
      FirstChild(item, t);
      assert t.items[0..] == t.items;
      ok := true;
      while current != null
        invariant i <= |t.items| == |item.kids|
        invariant current == if i < |t.items| then item.kids[i] else null
        invariant Valid() && Text() + RenderItems(t.items[i..], format, depth) == whole
        invariant Limit() == old(Limit()) && depth == old(depth)
        invariant buffer == old(buffer) || (!noalloc && fresh(buffer))
        decreases |t.items| - i
      {
        ChildOfTree(item, t, i);
        PrintableItem(t.items, i);
        ok := PrintElement(current, t.items[i..]);
        if !ok {
          return;
        }
        assert t.items[i..][1..] == t.items[i + 1..];
        current := current.next;
        i := i + 1;
      }
      assert RenderItems(t.items[i..], format, depth) == [];
    }

    /** One turn of that loop: the first of `items` and what separates it from the others. */
    method PrintElement(current: Node, ghost items: seq<Json>) returns (ok: bool)
      requires Valid() && items != [] && IsTree(current, items[0]) && Printable(items[0])
      requires (current.next == null) == (|items| == 1)
      modifies this`buffer, this`length, this`offset, this`depth, buffer
      ensures Limit() == old(Limit()) && (ok ==> depth == old(depth))
      ensures buffer == old(buffer) || (!noalloc && fresh(buffer))
      ensures var s := RenderItems(items, format, old(depth));
              if ok then Valid() && Text() + RenderItems(items[1..], format, old(depth)) == old(Text()) + s
              else old(offset) + |s| + 2 > Limit()
      decreases items, 0
    {
      hide IsTree, Render, Printable;
      ghost var text, r, rest := Text(), Render(items[0], format, depth), RenderItems(items[1..], format, depth);
      ok := PrintValue(current, items[0]);
      if !ok {
        return;
      }
      PrintedIsClean(items[0], format, depth);
      UpdateOffset(text, r);
      if current.next != null {
        var separator := if format then [COMMA, SPACE] else [COMMA];
        ok := Append(separator, |separator| + 1);
        if !ok {
          return;
        }
        Associate(text, r, separator + rest);
        Associate(text + r, separator, rest);
      } else {
        assert rest == [];
        assert text + r + [] == text + r;
      }
    }

    method PrintObject(item: Node, ghost t: Json) returns (ok: bool)
      requires Valid() && t.Object? && IsTree(item, t) && Printable(t)
      modifies this`buffer, this`length, this`offset, this`depth, buffer
      ensures Limit() == old(Limit()) && (ok ==> depth == old(depth))
      ensures buffer == old(buffer) || (!noalloc && fresh(buffer))
      ensures var s := Render(t, format, old(depth));
              (ok <==> old(offset) + |s| + 2 <= Limit()) && (ok ==> Wrote(old(Text()), s))
      decreases t, 2
    {
      hide IsTree, RenderMembers, ObjectClosing, Wrote, Render;
      ghost var text, members := Text(), RenderMembers(t.members, format, depth + 1);
      ObjectText(t, format, depth);
      var opening := if format then [OPEN_OBJECT, NEWLINE] else [OPEN_OBJECT];
      ok := Append(opening, |opening| + 1);
      if !ok {
        return;
      }
      depth := depth + 1;
      ok := PrintMembers(item, t);
      if !ok {
        return;
      }
      ok := CloseObject();
      if !ok {
        return;
      }
      WroteBehind(text + opening, members, ObjectClosing(format, depth));
      WroteBehind(text, opening, members + ObjectClosing(format, depth));
    }

    /** The closing brace of an object, on a line of its own when formatted. */
    method CloseObject() returns (ok: bool)
      requires Valid() && depth > 0
      modifies this`buffer, this`length, this`depth, buffer
      ensures Limit() == old(Limit()) && (ok ==> depth == old(depth) - 1)
      ensures buffer == old(buffer) || (!noalloc && fresh(buffer))
      ensures var s := ObjectClosing(format, old(depth) - 1);
              (ok <==> offset + |s| + 2 <= Limit()) && (ok ==> Wrote(old(Text()), s))
    {
      hide Tabs;
      var closing := if format then Tabs(depth - 1) + [CLOSE_OBJECT] else [CLOSE_OBJECT];
      ok := Ensure(if format then depth + 1 else 2);
      if !ok {
        return;
      }
      StoreTerminated(closing);
      depth := depth - 1;
    }

    /** The loop of print_object. */
    method PrintMembers(item: Node, ghost t: Json) returns (ok: bool)
      requires Valid() && t.Object? && IsTree(item, t) && PrintableMembers(t.members)
      modifies this`buffer, this`length, this`offset, this`depth, buffer
      ensures Limit() == old(Limit()) && (ok ==> depth == old(depth))
      ensures buffer == old(buffer) || (!noalloc && fresh(buffer))
      ensures var s := RenderMembers(t.members, format, old(depth));
              if ok then Valid() && Text() == old(Text()) + s else old(offset) + |s| + 2 > Limit()
      decreases t, 1
    {
      hide IsTree, RenderMembers, Printable;
      ghost var whole := Text() + RenderMembers(t.members, format, depth);
      var current := item.child;
      ghost var i := 0;
      FirstChild(item, t);
      assert t.members[0..] == t.members;
      ok := true;
      while current != null
        invariant i <= |t.members| == |item.kids|
        invariant current == if i < |t.members| then item.kids[i] else null
        invariant Valid() && Text() + RenderMembers(t.members[i..], format, depth) == whole
        invariant Limit() == old(Limit()) && depth == old(depth)
        invariant buffer == old(buffer) || (!noalloc && fresh(buffer))
        decreases |t.members| - i
      {
        ChildOfTree(item, t, i);
        PrintableMember(t.members, i);
        ok := PrintMember(current, t.members[i..]);
        if !ok {
          return;
        }
        assert t.members[i..][1..] == t.members[i + 1..];
        current := current.next;
        i := i + 1;
      }
      assert RenderMembers(t.members[i..], format, depth) == [];
    }

    /** The indentation and the key of a member, and what separates it from the value. */
    method PrintKey(current: Node) returns (ok: bool)
      requires Valid() && current.key.Some? && 0 !in current.key.value
      modifies this`buffer, this`length, this`offset, buffer
      ensures Limit() == old(Limit()) && (buffer == old(buffer) || (!noalloc && fresh(buffer)))
      ensures var s := Indent(format, depth) + RenderString(current.key.value) + KeySeparator(format);
              if ok then Valid() && Text() == old(Text()) + s else old(offset) + |s| + 2 > Limit()
    {
      hide RenderString;
      ghost var text, key := Text(), RenderString(current.key.value);
      if format {
        ok := Append(Tabs(depth), depth);
        if !ok {
          return;
        }
      }
      ghost var indent, before := Indent(format, depth), Text();
      assert before == text + indent by { assert text + [] == text; }
      ok := PrintString(current.key);
      if !ok {
        return;
      }
      KeyIsClean(current.key.value);
      UpdateOffset(before, key);
      var separator := if format then [COLON, TAB] else [COLON];
      ok := Append(separator, |separator|);
      if !ok {
        return;
      }
      Associate(text, indent + key, separator);
      Associate(text, indent, key);
    }

    /** One turn of that loop: the first of `members` and what separates it from the others. */
    method PrintMember(current: Node, ghost members: seq<Member>) returns (ok: bool)
      requires Valid() && members != [] && IsTree(current, members[0].value)
      requires current.key == Some(members[0].key) && 0 !in members[0].key && Printable(members[0].value)
      requires (current.next == null) == (|members| == 1)
      modifies this`buffer, this`length, this`offset, this`depth, buffer
      ensures Limit() == old(Limit()) && (ok ==> depth == old(depth))
      ensures buffer == old(buffer) || (!noalloc && fresh(buffer))
      ensures var s := RenderMembers(members, format, old(depth));
              if ok then Valid() && Text() + RenderMembers(members[1..], format, old(depth)) == old(Text()) + s
              else old(offset) + |s| + 2 > Limit()
      decreases members, 0
    {
      hide IsTree, Render, Printable, Indent, RenderString, KeySeparator, RenderMembers;
      MemberTextParts(members, format, depth);
      ghost var text, r := Text(), Render(members[0].value, format, depth);
      ghost var intro := Indent(format, depth) + RenderString(members[0].key) + KeySeparator(format);
      ok := PrintKey(current);
      if !ok {
        return;
      }
      ok := PrintValue(current, members[0].value);
      if !ok {
        return;
      }
      PrintedIsClean(members[0].value, format, depth);
      UpdateOffset(text + intro, r);
      var ending := (if current.next != null then [COMMA] else []) + (if format then [NEWLINE] else []);
      ok := Append(ending, |ending| + 1);
      if !ok {
        return;
      }
      Associate(text, intro + r + ending, RenderMembers(members[1..], format, depth));
      Associate(text, intro + r, ending);
      Associate(text, intro, r);
    }
  }

  /** print: the text of the tree, zero terminated, in a buffer of its own; null when it exceeds INT_MAX. */
  method Print(item: Node, ghost t: Json, format: bool, reallocates: bool) returns (printed: array?<byte>)
    requires IsTree(item, t) && Printable(t)
    ensures printed != null <==> |Render(t, format, 0)| + 2 <= INT_MAX
    ensures printed != null ==> fresh(printed) && printed[..] == Render(t, format, 0) + [0]
  {
    hide IsTree, Render, Printable, PrintBuffer.Wrote;
    var start := new byte[256];
    var p := new PrintBuffer(start, false, format, reallocates);
    var ok := p.PrintValue(item, t);
    if !ok {
      return null;
    }
    PrintedIsClean(t, format, 0);
    p.UpdateOffset([], Render(t, format, 0));
    assert [] + Render(t, format, 0) == Render(t, format, 0);
    printed := p.Extract();
  }

  /**
   * cJSON_PrintPreallocated: it succeeds exactly when the caller's buffer holds the text and
   * two more bytes, one more than the terminator needs.
   */
  method PrintPreallocated(item: Node, ghost t: Json, buffer: array<byte>, format: bool) returns (ok: bool)
    requires IsTree(item, t) && Printable(t) && buffer.Length <= INT_MAX
    modifies buffer
    ensures ok <==> |Render(t, format, 0)| + 2 <= buffer.Length
    ensures ok ==> buffer[..|Render(t, format, 0)| + 1] == Render(t, format, 0) + [0]
  {
    hide IsTree, Render, Printable;
    var p := new PrintBuffer(buffer, true, format, true);
    ok := p.PrintValue(item, t);
    if ok {
      var n := |Render(t, format, 0)|;
      assert [] + Render(t, format, 0) == Render(t, format, 0);
      assert buffer[..n + 1] == buffer[..n] + [buffer[n]];
    }
  }

  lemma KeyIsClean(s: bytes)
    requires 0 !in s
    ensures 0 !in RenderString(s)
  {
    EscapeIsClean(s);
  }

  lemma ArrayText(t: Json, format: bool, d: nat)
    requires t.Array?
    ensures Render(t, format, d) == [OPEN_ARRAY] + (RenderItems(t.items, format, d + 1) + [CLOSE_ARRAY])
  {}

  lemma ObjectText(t: Json, format: bool, d: nat)
    requires t.Object?
    ensures Render(t, format, d)
         == (if format then [OPEN_OBJECT, NEWLINE] else [OPEN_OBJECT])
            + (RenderMembers(t.members, format, d + 1) + ObjectClosing(format, d))
  {
    hide ObjectClosing;
  }

  lemma MemberTextParts(members: seq<Member>, format: bool, d: nat)
    requires members != []
    ensures RenderMembers(members, format, d)
         == Indent(format, d) + RenderString(members[0].key) + KeySeparator(format)
            + Render(members[0].value, format, d) + MemberEnd(|members| == 1, format)
            + RenderMembers(members[1..], format, d)
  {
    hide Render, RenderString, Indent, KeySeparator, MemberEnd;
    var a, b, c := Indent(format, d), RenderString(members[0].key), KeySeparator(format);
    var r, e, rest := Render(members[0].value, format, d),
      MemberEnd(|members| == 1, format), RenderMembers(members[1..], format, d);
    Associate(r, e, rest);
    Associate(c, r + e, rest);
    Associate(c, r, e);
    Associate(b, c + r + e, rest);
    Associate(b, c + r, e);
    Associate(b, c, r);
    Associate(a, b + c + r + e, rest);
    Associate(a, b + c + r, e);
    Associate(a, b + c, r);
    Associate(a, b, c);
  }

  lemma {:induction false} EscapeIsClean(s: bytes)
    requires 0 !in s
    ensures 0 !in Escape(s)
  {
    if s != [] { EscapeIsClean(s[1..]); }
  }

  lemma {:induction false} TabsAreClean(n: nat)
    ensures 0 !in Tabs(n)
  {
    if n > 0 { TabsAreClean(n - 1); }
  }

  lemma DecimalIsClean(n: int)
    ensures 0 !in DecimalInt(n)
  {
    DigitsRoundTrip(if n < 0 then -n else n);
  }

  /** A rendering holds no zero byte, so strlen finds its end. */
  lemma {:induction false} PrintedIsClean(t: Json, format: bool, d: nat)
    requires Printable(t)
    ensures 0 !in Render(t, format, d)
    decreases t, 1
  {
    hide Escape, DecimalInt, ValueInt, RenderItems, RenderMembers, Tabs;
    match t
    case Null =>
    case False =>
    case True =>
    case Number(x) => DecimalIsClean(ValueInt(x));
    case String(s) => EscapeIsClean(s);
    case Array(items) => ItemsAreClean(items, format, d + 1);
    case Object(members) =>
      MembersAreClean(members, format, d + 1);
      TabsAreClean(d);
  }

  lemma {:induction false} ItemsAreClean(items: seq<Json>, format: bool, d: nat)
    requires PrintableItems(items)
    ensures 0 !in RenderItems(items, format, d)
    decreases items, 0
  {
    hide Render, Printable;
    if items != [] {
      PrintedIsClean(items[0], format, d);
      ItemsAreClean(items[1..], format, d);
    }
  }

  lemma {:induction false} MembersAreClean(members: seq<Member>, format: bool, d: nat)
    requires PrintableMembers(members)
    ensures 0 !in RenderMembers(members, format, d)
    decreases members, 0
  {
    hide Render, Printable, RenderString, Tabs;
    if members != [] {
      KeyIsClean(members[0].key);
      TabsAreClean(d);
      PrintedIsClean(members[0].value, format, d);
      MembersAreClean(members[1..], format, d);
      var r, rest := Render(members[0].value, format, d), RenderMembers(members[1..], format, d);
      var ending := MemberEnd(|members| == 1, format) + rest;
      assert 0 !in ending;
      assert 0 !in r + ending;
      assert 0 !in KeySeparator(format) + (r + ending);
      assert 0 !in RenderString(members[0].key) + (KeySeparator(format) + (r + ending));
    }
  }

  lemma EscapeSplit(s: bytes, i: nat)
    requires i < |s|
    ensures Escape(s[i..]) == EscapeByte(s[i]) + Escape(s[i + 1..])
  {
    assert s[i..][1..] == s[i + 1..];
  }

  lemma EscapeEnd(s: bytes)
    requires |s| == 0
    ensures Escape(s) == []
  {}

  lemma {:induction false} NoEscapes(s: bytes)
    requires |Escape(s)| == |s|
    ensures Escape(s) == s
  {
    if s != [] {
      EscapeNotShorter(s[1..]);
      NoEscapes(s[1..]);
      assert s == [s[0]] + s[1..];
    }
  }

  lemma {:induction false} EscapeNotShorter(s: bytes)
    ensures |Escape(s)| >= |s|
  {
    if s != [] { EscapeNotShorter(s[1..]); }
  }
}
