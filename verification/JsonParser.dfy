/**
 * The parser: a cursor that moves over the text and fills nodes. Each method is proved to
 * do what the reading functions of JsonText say.
 */
module JsonParser {
  import opened Bytes
  import opened Decimal
  import opened JsonText
  import opened JsonSizing
  import opened JsonNode
  import Utf8

  class ParseBuffer {
    const content: bytes
    var offset: nat
    var depth: nat

    constructor (content: bytes)
      ensures this.content == content && offset == 0 && depth == 0
    {
      this.content := content;
      offset, depth := 0, 0;
    }

    method SkipWhitespace()
      requires offset <= |content|
      modifies this`offset
      ensures offset == Skip(content, old(offset))
    {
      if offset == |content| {
        return;
      }
      while offset < |content| && content[offset] <= 32
        invariant offset <= |content|
        invariant SkipBlanks(content, offset) == SkipBlanks(content, old(offset))
      {
        offset := offset + 1;
      }
      if offset == |content| {
        offset := offset - 1;
      }
    }

    /** The copying loop of parse_number. */
    method CopyNumber(text: array<byte>) returns (i: nat)
      requires offset <= |content| && text.Length == 64
      modifies text
      ensures i <= 63 && text[..i] == NumberText(content, offset, 63)
    {
      hide NumberText;
      i := 0;
      ghost var n := |NumberText(content, offset, 63)|;
      NumberTextEnd(content, offset, 63, 0);
      while i < 63 && offset + i < |content| && IsNumberChar(content[offset + i])
        invariant i <= n <= 63 && offset + n <= |content|
        invariant forall k :: 0 <= k < i ==> text[k] == content[offset + k]
        invariant i < n <==> i < 63 && offset + i < |content| && IsNumberChar(content[offset + i])
      {
        text[i] := content[offset + i];
        i := i + 1;
        NumberTextEnd(content, offset, 63, i);
      }
      assert text[..i] == content[offset..offset + i];
      text[i] := 0;
    }

    method ParseNumber(item: Node) returns (ok: bool)
      requires offset <= |content|
      modifies this`offset, item`kind, item`valuedouble
      ensures var r := NumberLiteral(content, old(offset));
              ok == r.Some?
              && (ok ==> offset == r.value.1 && item.kind == NumberKind && item.valuedouble == r.value.0)
    {
      hide Strtod, NumberText;
      var text := new byte[64];
      var i := CopyNumber(text);
      var (number, length) := Strtod(text[..i]);
      if length == 0 {
        return false;
      }
      item.valuedouble := number;
      item.kind := NumberKind;
      offset := offset + length;
      return true;
    }

    method ParseHex4(at: nat) returns (h: nat)
      requires at + 4 <= |content|
      ensures h == Hex4(content, at)
    {
      h := 0;
      var i := 0;
      while i < 4
        invariant i <= 4
        invariant forall k :: at <= k < at + i ==> HexValue(content[k]).Some?
        invariant i == 0 ==> h == 0
        invariant i == 1 ==> h == HexValue(content[at]).value * 16
        invariant i == 2 ==> h == HexValue(content[at]).value * 256 + HexValue(content[at + 1]).value * 16
        invariant i == 3 ==> h == HexValue(content[at]).value * 4096 + HexValue(content[at + 1]).value * 256
                                  + HexValue(content[at + 2]).value * 16
        invariant i == 4 ==> h == HexValue(content[at]).value * 4096 + HexValue(content[at + 1]).value * 256
                                  + HexValue(content[at + 2]).value * 16 + HexValue(content[at + 3]).value
      {
        var digit := HexValue(content[at + i]);
        if digit.None? {
          return 0;
        }
        h := h + digit.value;
        if i < 3 {
          h := h * 16;
        }
        i := i + 1;
      }
    }

    /** Writes the UTF-8 form of `cp` at `at`, last byte first. */
    method EncodeUtf8(cp: Utf8.Scalar, output: array<byte>, at: nat) returns (length: nat)
      requires at + |Utf8.Encode(cp)| <= output.Length
      modifies output
      ensures length == |Utf8.Encode(cp)|
      ensures output[..at + length] == old(output[..at]) + Utf8.Encode(cp)
    {
      ghost var s := Utf8.Encode(cp);
      ghost var before := output[..at];
      var mark := 0;
      if cp < 0x80 {
        length := 1;
      } else if cp < 0x800 {
        length, mark := 2, 0xC0;
      } else if cp < 0x10000 {
        length, mark := 3, 0xE0;
      } else {
        length, mark := 4, 0xF0;
      }
      WriteGroups(cp, length, mark, output, at);
      assert output[at..at + length] == s;
      assert output[..at + length] == output[..at] + output[at..at + length];
    }

    /** The loop of utf16_literal_to_utf8, and the first byte. */
    method WriteGroups(cp: Utf8.Scalar, length: nat, mark: nat, output: array<byte>, at: nat)
      requires length == |Utf8.Encode(cp)| && mark == LeadMark(length) && at + length <= output.Length
      modifies output
      ensures forall j :: 0 <= j < length ==> output[at + j] == Utf8.Encode(cp)[j]
      ensures output[..at] == old(output[..at])
    {
      hide Utf8.Encode, LeadMark;
      ghost var s := Utf8.Encode(cp);
      var rest: nat := cp;
      var position := length - 1;
      while position > 0
        invariant 0 <= position <= length - 1
        invariant rest == Shifted(cp, length - 1 - position)
        invariant output[..at] == old(output[..at])
        invariant forall j :: position < j < length ==> output[at + j] == s[j]
      {
        EncodedByte(cp, position);
        // (codepoint | 0x80) & 0xBF
        output[at + position] := 0x80 + rest % 64;
        rest := rest / 64;
        position := position - 1;
      }
      EncodedByte(cp, 0);
      output[at] := mark + rest;
    }

    method Utf16LiteralToUtf8(p: nat, end: nat, output: array<byte>, at: nat) returns (length: nat, after: nat)
      requires p <= end <= |content|
      requires at + |Utf16Literal(content, p, end).1| <= output.Length
      modifies output
      ensures length == Utf16Literal(content, p, end).0
      ensures length > 0 ==>
                var s := Utf16Literal(content, p, end).1;
                after == at + |s| && output[..after] == old(output[..at]) + s
    {
      hide Utf8.Encode, Hex4, FromSurrogates;
      after := at;
      if end - p < 6 {
        return 0, at;
      }
      var first := ParseHex4(p + 2);
      if 0xDC00 <= first <= 0xDFFF {
        return 0, at;
      }
      var codepoint := first;
      if 0xD800 <= first <= 0xDBFF {
        if end - (p + 6) < 6 || content[p + 6] != BACKSLASH || content[p + 7] != LETTER_U {
          return 0, at;
        }
        var second := ParseHex4(p + 8);
        if second < 0xDC00 || second > 0xDFFF {
          return 0, at;
        }
        // ((first & 0x3FF) << 10) | (second & 0x3FF)
        SurrogateBits(first, second);
        codepoint := 0x10000 + first % 1024 * 1024 + second % 1024;
        length := 12;
      } else {
        length := 6;
      }
      var n := EncodeUtf8(codepoint, output, at);
      after := at + n;
    }

    /** The first pass of parse_string. */
    method FindStringEnd(start: nat) returns (found: bool, end: nat, skipped: nat)
      requires start <= |content|
      ensures found == ScanEnd(content, start).Some?
      ensures found ==> end == ScanEnd(content, start).value && skipped == Skipped(content, start, end, false)
    {
      end, skipped := start, 0;
      ghost var r := ScanEnd(content, start);
      while end < |content| && content[end] != QUOTE
        invariant start <= end <= |content|
        invariant ScanEnd(content, end) == r
        invariant r.Some? ==>
                    skipped + Skipped(content, end, r.value, false) == Skipped(content, start, r.value, false)
      {
        if content[end] == BACKSLASH {
          if end + 1 >= |content| {
            return false, end, skipped;
          }
          if r.Some? {
            assert Skipped(content, end, r.value, false) == 1 + Skipped(content, end + 1, r.value, true);
            assert Skipped(content, end + 1, r.value, true) == Skipped(content, end + 2, r.value, false);
          }
          skipped := skipped + 1;
          end := end + 1;
        }
        end := end + 1;
      }
      found := end < |content|;
    }

    /** The second pass of parse_string, into a buffer sized by the first. */
    method Unescape(start: nat, end: nat, output: array<byte>) returns (ok: bool, length: nat, p: nat)
      requires start <= end < |content| && !SecondAt(content, start, end, false)
      requires Room(content, start, end, false) < output.Length
      modifies output
      ensures ok == DecodeBody(content, start, end).Some?
      ensures ok ==> length < output.Length && output[..length] == DecodeBody(content, start, end).value
    {
      hide Room, SecondAt;
      length, p := 0, start;
      ghost var second := false;
      ghost var r := DecodeBody(content, start, end);
      PrependNothing(output[..0], r);
      while p < end
        invariant start <= p <= end + 1
        invariant p <= end ==> !SecondAt(content, p, end, second)
        invariant length + Room(content, p, end, second) <= Room(content, start, end, false)
        invariant r == Prepend(output[..length], DecodeBody(content, p, end))
      {
        ghost var before := output[..length];
        if content[p] != BACKSLASH {
          PlainStep(content, p, end, second);
          second := false;
          PrependTwice(before, [content[p]], DecodeBody(content, p + 1, end));
          output[length] := content[p];
          length, p := length + 1, p + 1;
          assert output[..length] == before + [content[p - 1]];
        } else if content[p + 1] == LETTER_U {
          ghost var (n, s) := Utf16Literal(content, p, end);
          if n > 0 {
            second := EscapeStep(content, p, end, second, n, |s|);
            PrependTwice(before, s, DecodeBody(content, p + n, end));
          }
          var taken, after := Utf16LiteralToUtf8(p, end, output, length);
          if taken == 0 {
            return false, length, p;
          }
          length, p := after, p + taken;
        } else {
          var plain := SimpleEscape(content[p + 1]);
          if plain.None? {
            return false, length, p;
          }
          second := EscapeStep(content, p, end, second, 2, 1);
          PrependTwice(before, [plain.value], DecodeBody(content, p + 2, end));
          output[length] := plain.value;
          length, p := length + 1, p + 2;
          assert output[..length] == before + [plain.value];
        }
      }
      ok := true;
      assert output[..length] + [] == output[..length];
    }

    method ParseString(item: Node) returns (ok: bool)
      requires offset < |content|
      modifies this`offset, item`kind, item`valuestring
      ensures var r := StringLiteral(content, old(offset));
              ok == r.Some?
              && (ok ==> offset == r.value.1 && item.kind == StringKind && item.valuestring == Some(r.value.0))
    {
      if content[offset] != QUOTE {
        offset := offset + 1;
        return false;
      }
      var start := offset + 1;
      var found, end, skipped := FindStringEnd(start);
      if !found {
        offset := start;
        return false;
      }
      ScanCounts(content, start, end);
      var output := new byte[end - offset - skipped + 1];
      var length, p;
      ok, length, p := Unescape(start, end, output);
      if !ok {
        offset := p;
        return;
      }
      ghost var text := output[..length];
      output[length] := 0;
      CStrUpToTerminator(output[..], length);
      assert output[..][..length] == text;
      item.kind := StringKind;
      item.valuestring := Some(CStr(output[..]));
      offset := end + 1;
    }

    /** parse_value into a new node. */
    method ParseValue(item: Node) returns (ok: bool)
      requires offset <= |content| && item.IsNew()
      modifies this`offset, this`depth
      modifies item`kind, item`valuestring, item`valuedouble, item`child, item`kids, item`repr
      ensures var r := Value(content, old(offset), old(depth));
              ok == r.Some?
              && (ok ==> offset == r.value.1 && depth == old(depth) && IsTree(item, r.value.0))
      ensures ok ==> fresh(item.repr - {item})
      decreases |content| - offset, 4
    {
      if At(content, offset, NULL_TEXT) {
        item.kind := NullKind;
        offset := offset + 4;
        return true;
      }
      if At(content, offset, FALSE_TEXT) {
        item.kind := FalseKind;
        offset := offset + 5;
        return true;
      }
      if At(content, offset, TRUE_TEXT) {
        item.kind := TrueKind;
        offset := offset + 4;
        return true;
      }
      if offset < |content| && content[offset] == QUOTE {
        ok := ParseString(item);
      } else if offset < |content| && (content[offset] == 45 || IsDigit(content[offset])) {
        ok := ParseNumber(item);
      } else if offset < |content| && content[offset] == OPEN_ARRAY {
        ok := ParseArray(item);
      } else if offset < |content| && content[offset] == OPEN_OBJECT {
        ok := ParseObject(item);
      } else {
        ok := false;
      }
    }

    /** How parse_array and parse_object begin: up to the closing bracket or before the first element. */
    method EnterContainer(open: byte, close: byte) returns (ok: bool, empty: bool)
      requires offset < |content|
      modifies this`offset, this`depth
      ensures var p := Skip(content, old(offset) + 1);
              && ok == (old(depth) < NESTING_LIMIT && content[old(offset)] == open && p < |content|)
              && (ok ==> empty == (content[p] == close) && offset == if empty then p else p - 1)
      ensures ok ==> depth == old(depth) + 1
    {
      hide Skip;
      empty := false;
      if depth >= NESTING_LIMIT {
        return false, empty;
      }
      depth := depth + 1;
      if content[offset] != open {
        return false, empty;
      }
      offset := offset + 1;
      SkipWhitespace();
      if offset < |content| && content[offset] == close {
        return true, true;
      }
      ok := offset < |content|;
      offset := offset - 1;
    }

    method ParseArray(item: Node) returns (ok: bool)
      requires offset < |content| && item.IsNew()
      modifies this`offset, this`depth, item`kind, item`child, item`kids, item`repr
      ensures var r := ArrayLiteral(content, old(offset), old(depth));
              ok == r.Some?
              && (ok ==> offset == r.value.1 && depth == old(depth) && IsTree(item, r.value.0))
      ensures ok ==> fresh(item.repr - {item})
      decreases |content| - offset, 2
    {
      hide Items, Skip, IsTree, AreTrees, Linked;
      var empty;
      ok, empty := EnterContainer(OPEN_ARRAY, CLOSE_ARRAY);
      if !ok {
        return;
      }
      var head: Node?, current: Node? := null, null;
      ghost var kids, items, below := [], [], {};
      NoTrees();
      if !empty {
        ok, head, current, kids, items, below := ParseElements();
        if !ok || offset >= |content| || content[offset] != CLOSE_ARRAY {
          return false;
        }
      }
      depth := depth - 1;
      assert item !in Elements(kids) && item !in below;
      item.kind := ArrayKind;
      AdoptChain(item, head, current, kids, items, below, Array(items));
      offset := offset + 1;
      return true;
    }

    /** The loop of parse_array over the comma separated elements. */
    method ParseElements()
      returns (ok: bool, head: Node?, current: Node?, ghost kids: seq<Node>, ghost items: seq<Json>, ghost below: set<Node>)
      requires offset < |content|
      modifies this`offset, this`depth
      ensures var r := Items(content, old(offset) + 1, old(depth));
              ok == r.Some? && (ok ==> r.value == (items, offset) && depth == old(depth))
      ensures ok ==> IsChain(head, current, kids) && kids != []
      ensures ok ==> AreTrees(kids, items, below) && fresh(below) && fresh(Elements(kids))
      decreases |content| - offset, 1
    {
      hide IsTree, AreTrees, Value, Skip, IsChain, Linked;
      head, current, kids, items, below := null, null, [], [], {};
      ghost var whole := Items(content, offset + 1, depth);
      ghost var nodes := {};
      PrependNoItems(whole);
      NoTrees();
      var more := true;
      while more
        invariant offset <= |content| && (more ==> old(offset) <= offset < |content|)
        invariant depth == old(depth)
        invariant AreTrees(kids, items, below) && fresh(below)
        invariant fresh(nodes) && nodes == Elements(kids)
        invariant IsChain(head, current, kids)
        invariant more ==> whole == PrependItems(items, Items(content, offset + 1, depth))
        invariant !more ==> kids != [] && whole == Some((items, offset))
        decreases |content| - offset, more
      {
        ghost var before := items;
        ok, head, current, kids, items, below := ParseElement(head, current, kids, items, below, nodes);
        if !ok {
          return;
        }
        more := offset < |content| && content[offset] == COMMA;
        nodes := nodes + {current};
        assert items == before + [items[|before|]];
        if more { PrependItemsTwice(before, items[|before|], Items(content, offset + 1, depth)); }
      }
      ok := true;
    }

    /** One turn of that loop, up to what follows the element. */
    method ParseElement(head: Node?, current: Node?,
        ghost kids: seq<Node>, ghost items: seq<Json>, ghost below: set<Node>, ghost nodes: set<Node>)
      returns (ok: bool, first: Node?, item: Node?, ghost kids': seq<Node>, ghost items': seq<Json>, ghost below': set<Node>)
      requires offset < |content| && IsChain(head, current, kids)
      requires AreTrees(kids, items, below) && nodes == Elements(kids)
      modifies this`offset, this`depth, nodes`next
      ensures var r := Value(content, Skip(content, old(offset) + 1), old(depth));
              ok == r.Some?
              && (ok ==> offset == Skip(content, r.value.1) && items' == items + [r.value.0]
                         && depth == old(depth))
      ensures ok ==> item != null && kids' == kids + [item] && IsChain(first, item, kids')
      ensures ok ==> AreTrees(kids', items', below') && fresh(below' - below) && fresh(item)
      decreases |content| - offset, 0
    {
      hide IsTree, Value, Skip, Linked, AreTrees, IsChain;
      var node;
      first, node := AddNewNode(head, current, kids, items, below, nodes);
      item, kids', items', below' := node, kids + [node], items, below;
      offset := offset + 1;
      SkipWhitespace();
      ghost var r := Value(content, offset, depth);
      ok := ParseValue(node);
      if !ok {
        return;
      }
      AppendTree(kids, items, below, node, r.value.0);
      items', below' := items + [r.value.0], below + (node.repr - {node});
      SkipWhitespace();
    }

    method ParseObject(item: Node) returns (ok: bool)
      requires offset < |content| && item.IsNew()
      modifies this`offset, this`depth, item`kind, item`child, item`kids, item`repr
      ensures var r := ObjectLiteral(content, old(offset), old(depth));
              ok == r.Some?
              && (ok ==> offset == r.value.1 && depth == old(depth) && IsTree(item, r.value.0))
      ensures ok ==> fresh(item.repr - {item})
      decreases |content| - offset, 3
    {
      hide Members, Skip, IsTree, Linked, AreTrees, HaveKeys, Values;
      var empty;
      ok, empty := EnterContainer(OPEN_OBJECT, CLOSE_OBJECT);
      if !ok {
        return;
      }
      var head: Node?, current: Node? := null, null;
      ghost var kids, members, below := [], [], {};
      NoTrees();
      if !empty {
        ok, head, current, kids, members, below := ParseMembers();
        if !ok || offset >= |content| || content[offset] != CLOSE_OBJECT {
          return false;
        }
      }
      depth := depth - 1;
      assert item !in Elements(kids) && item !in below;
      item.kind := ObjectKind;
      AdoptChain(item, head, current, kids, Values(members), below, Object(members));
      offset := offset + 1;
      return true;
    }

    /** The loop of parse_object over the comma separated members. */
    method ParseMembers()
      returns (ok: bool, head: Node?, current: Node?,
          ghost kids: seq<Node>, ghost members: seq<Member>, ghost below: set<Node>)
      requires offset < |content|
      modifies this`offset, this`depth
      ensures var r := Members(content, old(offset) + 1, old(depth));
              ok == r.Some? && (ok ==> r.value == (members, offset) && depth == old(depth))
      ensures ok ==> IsChain(head, current, kids) && kids != [] && HaveKeys(kids, members)
      ensures ok ==> AreTrees(kids, Values(members), below) && fresh(below) && fresh(Elements(kids))
      decreases |content| - offset, 2
    {
      hide IsTree, AreTrees, IsChain, OneMember, Skip, HaveKeys, Values;
      head, current, kids, members, below := null, null, [], [], {};
      ghost var whole := Members(content, offset + 1, depth);
      ghost var nodes := {};
      PrependNoMembers(whole);
      NoTrees();
      var more := true;
      while more
        invariant offset <= |content| && (more ==> old(offset) <= offset < |content|)
        invariant depth == old(depth)
        invariant AreTrees(kids, Values(members), below) && fresh(below)
        invariant fresh(nodes) && nodes == Elements(kids)
        invariant IsChain(head, current, kids) && HaveKeys(kids, members)
        invariant more ==> whole == PrependMembers(members, Members(content, offset + 1, depth))
        invariant !more ==> kids != [] && whole == Some((members, offset))
        decreases |content| - offset, more
      {
        ghost var before := members;
        ok, head, current, kids, members, below := ParseMember(head, current, kids, members, below, nodes);
        if !ok {
          return;
        }
        more := offset < |content| && content[offset] == COMMA;
        nodes := nodes + {current};
        assert members == before + [members[|before|]];
        if more { PrependMembersTwice(before, members[|before|], Members(content, offset + 1, depth)); }
      }
      ok := true;
    }

    /** The key of a member, up to its colon. */
    method ParseKey(node: Node) returns (ok: bool)
      requires offset < |content|
      modifies this`offset, node`kind, node`valuestring, node`key
      ensures var r := KeyLiteral(content, old(offset) + 1);
              ok == r.Some? && (ok ==> offset == r.value.1 && node.key == Some(r.value.0))
    {
      hide StringLiteral, Skip;
      if offset + 1 >= |content| {
        return false;
      }
      offset := offset + 1;
      SkipWhitespace();
      ok := ParseString(node);
      if !ok {
        return;
      }
      SkipWhitespace();
      node.key := node.valuestring;
      node.valuestring := None;
      ok := offset < |content| && content[offset] == COLON;
    }

    /** The key and the value of a member, into a new node, up to what follows them. */
    method ParsePair(node: Node) returns (ok: bool)
      requires offset < |content| && node.IsNew()
      modifies this`offset, this`depth
      modifies node`kind, node`valuestring, node`valuedouble, node`child, node`kids, node`repr, node`key
      ensures var r := OneMember(content, old(offset) + 1, old(depth));
              ok == r.Some?
              && (ok ==> offset == r.value.1 && depth == old(depth)
                         && node.key == Some(r.value.0.key) && IsTree(node, r.value.0.value))
      ensures ok ==> fresh(node.repr - {node})
      decreases |content| - offset, 0
    {
      hide IsTree, Value, Skip, KeyLiteral;
      ok := ParseKey(node);
      if !ok {
        return;
      }
      offset := offset + 1;
      SkipWhitespace();
      ok := ParseValue(node);
      if !ok {
        return;
      }
      SkipWhitespace();
    }

    /** One turn of that loop, up to what follows the member. */
    method ParseMember(head: Node?, current: Node?,
        ghost kids: seq<Node>, ghost members: seq<Member>, ghost below: set<Node>, ghost nodes: set<Node>)
      returns (ok: bool, first: Node?, item: Node?,
          ghost kids': seq<Node>, ghost members': seq<Member>, ghost below': set<Node>)
      requires offset < |content| && IsChain(head, current, kids) && HaveKeys(kids, members)
      requires AreTrees(kids, Values(members), below) && nodes == Elements(kids)
      modifies this`offset, this`depth, nodes`next
      ensures var r := OneMember(content, old(offset) + 1, old(depth));
              ok == r.Some?
              && (ok ==> offset == r.value.1 && members' == members + [r.value.0] && depth == old(depth))
      ensures ok ==> item != null && kids' == kids + [item] && IsChain(first, item, kids')
      ensures ok ==> HaveKeys(kids', members')
      ensures ok ==> AreTrees(kids', Values(members'), below') && fresh(below' - below) && fresh(item)
      decreases |content| - offset, 1
    {
      hide IsTree, Linked, AreTrees, IsChain, OneMember, Values, HaveKeys, Elements;
      ghost var r := OneMember(content, offset + 1, depth);
      var node;
      first, node := AddNewNode(head, current, kids, Values(members), below, nodes);
      item, kids', members', below' := node, kids + [node], members, below;
      ok := ParsePair(node);
      if !ok {
        return;
      }
      AppendMember(kids, members, below, node, r.value.0);
      members', below' := members + [r.value.0], below + (node.repr - {node});
    }
  }

  /**
   * cJSON_ParseWithLengthOpts: a fresh tree that is the value of the document, or null
   * exactly when there is none.
   */
  method Parse(content: bytes, requireNul: bool) returns (item: Node?)
    ensures (item != null) == Document(content, requireNul).Some?
    ensures item != null ==> IsTree(item, Document(content, requireNul).value) && fresh(item.repr)
  {
    hide Value, IsTree, Skip;
    if |content| == 0 {
      return null;
    }
    var buffer := new ParseBuffer(content);
    if |content| > 4 && content[..3] == BOM {
      buffer.offset := buffer.offset + 3;
    }
    buffer.SkipWhitespace();
    var node := new Node();
    ghost var r := Value(content, buffer.offset, 0);
    var ok := buffer.ParseValue(node);
    if !ok {
      return null;
    }
    if requireNul {
      buffer.SkipWhitespace();
      if buffer.offset >= |content| || content[buffer.offset] != 0 {
        return null;
      }
    }
    OwnNode(node, r.value.0);
    return node;
  }

  lemma PrependMembersTwice(members: seq<Member>, m: Member, r: Option<(seq<Member>, nat)>)
    ensures PrependMembers(members, PrependMembers([m], r)) == PrependMembers(members + [m], r)
  {
    if r.Some? { assert members + ([m] + r.value.0) == members + [m] + r.value.0; }
  }

  lemma PrependNoMembers(r: Option<(seq<Member>, nat)>)
    ensures PrependMembers([], r) == r
  {
    if r.Some? { assert [] + r.value.0 == r.value.0; }
  }

  function PrependMembers(members: seq<Member>, r: Option<(seq<Member>, nat)>): (result: Option<(seq<Member>, nat)>) {
    if r.Some? then Some((members + r.value.0, r.value.1)) else None
  }

  lemma PrependItemsTwice(items: seq<Json>, t: Json, r: Option<(seq<Json>, nat)>)
    ensures PrependItems(items, PrependItems([t], r)) == PrependItems(items + [t], r)
  {
    if r.Some? { assert items + ([t] + r.value.0) == items + [t] + r.value.0; }
  }

  lemma PrependNoItems(r: Option<(seq<Json>, nat)>)
    ensures PrependItems([], r) == r
  {
    if r.Some? { assert [] + r.value.0 == r.value.0; }
  }

  function PrependItems(items: seq<Json>, r: Option<(seq<Json>, nat)>): (result: Option<(seq<Json>, nat)>) {
    if r.Some? then Some((items + r.value.0, r.value.1)) else None
  }

  /** How far the number characters reach. */
  lemma {:induction false} NumberTextEnd(c: bytes, off: nat, room: nat, i: nat)
    requires off <= |c| && i <= |NumberText(c, off, room)|
    ensures i < |NumberText(c, off, room)| <==> i < room && off + i < |c| && IsNumberChar(c[off + i])
    decreases i
  {
    if i > 0 { NumberTextEnd(c, off + 1, room - 1, i - 1); }
  }

  /** `k` groups of six bits less. */
  function Shifted(cp: nat, k: nat): (r: nat) {
    if k == 0 then cp else Shifted(cp, k - 1) / 64
  }

  function LeadMark(length: nat): (r: nat) {
    if length == 4 then 0xF0 else if length == 3 then 0xE0 else if length == 2 then 0xC0 else 0
  }

  /** The bytes of a UTF-8 form, by groups of six bits from the last one on. */
  lemma EncodedByte(cp: Utf8.Scalar, position: nat)
    requires position < |Utf8.Encode(cp)|
    ensures var n := |Utf8.Encode(cp)|;
            Utf8.Encode(cp)[position]
            == if position == 0 then LeadMark(n) + Shifted(cp, n - 1) else 0x80 + Shifted(cp, n - 1 - position) % 64
  {
    assert Shifted(cp, 1) == cp / 64;
    assert Shifted(cp, 2) == cp / 64 / 64 == cp / 4096;
    assert Shifted(cp, 3) == cp / 4096 / 64 == cp / 262144;
  }

  lemma SurrogateBits(high: nat, low: nat)
    requires IsHighSurrogate(high) && IsLowSurrogate(low)
    ensures 0x10000 + high % 1024 * 1024 + low % 1024 == FromSurrogates(high, low)
  {
    assert high % 1024 == high - 0xD800;
    assert low % 1024 == low - 0xDC00;
  }

  lemma PrependNothing(a: bytes, o: Option<bytes>)
    requires |a| == 0
    ensures Prepend(a, o) == o
  {
    if o.Some? { assert a + o.value == o.value; }
  }

  lemma PrependTwice(a: bytes, b: bytes, o: Option<bytes>)
    ensures Prepend(a, Prepend(b, o)) == Prepend(a + b, o)
  {
    if o.Some? { assert a + (b + o.value) == a + b + o.value; }
  }

  lemma {:induction false} CStrUpToTerminator(s: bytes, n: nat)
    requires n < |s| && s[n] == 0
    ensures CStr(s) == CStr(s[..n])
    decreases n
  {
    if n > 0 && s[0] != 0 {
      CStrUpToTerminator(s[1..], n - 1);
      assert s[1..][..n - 1] == s[..n][1..];
    }
  }
}
