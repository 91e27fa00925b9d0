/**
 * parse_string allocates for its second pass what its first pass counted. The two passes
 * may disagree on where an escape starts: four bad digits after `\u` are read as 0 and
 * stepped over, backslashes and all. The room counted is enough all the same.
 */
module JsonSizing {
  import opened Bytes
  import opened JsonText

  /**
   * The backslashes the first pass counts from `p` on; `second` says that `p` is the
   * byte behind one of them.
   */
  function Skipped(c: bytes, p: nat, end: nat, second: bool): (n: nat)
    requires p <= end <= |c|
    ensures n <= end - p
    decreases end - p
  {
    if p == end then 0
    else if second || c[p] != BACKSLASH then Skipped(c, p + 1, end, false)
    else 1 + Skipped(c, p + 1, end, true)
  }

  /** Whether the first pass, going on from `p`, stands behind a backslash at `end`. */
  predicate SecondAt(c: bytes, p: nat, end: nat, second: bool)
    requires p <= end <= |c|
    decreases end - p
  {
    if p == end then second
    else SecondAt(c, p + 1, end, !second && c[p] == BACKSLASH)
  }

  /** The bytes the second pass may still write when it stands at `p`. */
  function Room(c: bytes, p: nat, end: nat, second: bool): (r: nat)
    requires p <= end + 1 <= |c|
  {
    if p > end then 0 else end - p - Skipped(c, p, end, second)
  }

  /** The first pass agrees with its own count. */
  lemma {:induction false} ScanCounts(c: bytes, i: nat, end: nat)
    requires i <= |c| && ScanEnd(c, i) == Some(end)
    ensures !SecondAt(c, i, end, false)
    decreases |c| - i
  {
    if c[i] == QUOTE {
    } else if c[i] == BACKSLASH {
      ScanCounts(c, i + 2, end);
      assert SecondAt(c, i, end, false) == SecondAt(c, i + 1, end, true) == SecondAt(c, i + 2, end, false);
    } else {
      ScanCounts(c, i + 1, end);
    }
  }

  /** `n` bytes hold at most every second one a backslash that counts. */
  lemma {:induction false} Advance(c: bytes, p: nat, end: nat, second: bool, n: nat) returns (after: bool)
    requires p + n <= end <= |c|
    ensures SecondAt(c, p + n, end, after) == SecondAt(c, p, end, second)
    ensures Skipped(c, p, end, second)
         <= Skipped(c, p + n, end, after) + (if second then n / 2 else (n + 1) / 2)
    decreases n
  {
    if n == 0 {
      after := second;
    } else {
      after := Advance(c, p + 1, end, !second && c[p] == BACKSLASH, n - 1);
    }
  }

  /** A plain byte takes one byte of room. */
  lemma PlainStep(c: bytes, p: nat, end: nat, second: bool)
    requires p < end < |c| && c[p] != BACKSLASH
    ensures SecondAt(c, p + 1, end, false) == SecondAt(c, p, end, second)
    ensures 1 + Room(c, p + 1, end, false) == Room(c, p, end, second)
  {}

  /**
   * An escape of `n` bytes that writes at most half as many is within the room, wherever
   * the first pass thought it was, and even when it swallows the closing quote.
   */
  lemma EscapeStep(c: bytes, p: nat, end: nat, second: bool, n: nat, w: nat) returns (after: bool)
    requires p < end < |c| && c[p] == BACKSLASH && !SecondAt(c, p, end, second)
    requires w <= n / 2 && (p + n <= end || (p + n == end + 1 && n == 2))
    ensures w + Room(c, p + n, end, after) <= Room(c, p, end, second)
    ensures p + n <= end ==> !SecondAt(c, p + n, end, after)
  {
    if p + n <= end {
      after := Advance(c, p, end, second, n);
    } else {
      assert SecondAt(c, p, end, second) == SecondAt(c, p + 1, end, !second);
      assert second;
      after := false;
    }
  }

  /** Whatever the body holds, the text stored is no longer than the first pass allowed. */
  lemma {:induction false} DecodedFits(c: bytes, p: nat, end: nat, second: bool)
    requires p <= end + 1 <= |c|
    requires p <= end ==> !SecondAt(c, p, end, second)
    requires DecodeBody(c, p, end).Some?
    ensures |DecodeBody(c, p, end).value| <= Room(c, p, end, second)
    decreases end + 1 - p
  {
    hide Room, SecondAt, Utf16Literal;
    if p < end {
      if c[p] != BACKSLASH {
        PlainStep(c, p, end, second);
        DecodedFits(c, p + 1, end, false);
      } else if c[p + 1] == LETTER_U {
        var (n, s) := Utf16Literal(c, p, end);
        var after := EscapeStep(c, p, end, second, n, |s|);
        DecodedFits(c, p + n, end, after);
      } else {
        var after := EscapeStep(c, p, end, second, 2, 1);
        DecodedFits(c, p + 2, end, after);
      }
    }
  }

  /**
   * For every input: the string stored needs no more than what parse_string allocates,
   * the distance from the opening quote less the counted backslashes.
   */
  lemma AllocationSuffices(c: bytes, off: nat, end: nat)
    requires off < |c| && ScanEnd(c, off + 1) == Some(end)
    requires DecodeBody(c, off + 1, end).Some?
    ensures |DecodeBody(c, off + 1, end).value| < end - off - Skipped(c, off + 1, end, false)
  {
    ScanCounts(c, off + 1, end);
    DecodedFits(c, off + 1, end, false);
  }

  /** The passes do part ways: here the second one takes the closing quote for an escaped one. */
  lemma PassesPartWays()
    ensures var c: bytes := [QUOTE, BACKSLASH, LETTER_U, 49, 50, 51, BACKSLASH, BACKSLASH, QUOTE, 0];
            StringLiteral(c, 0) == Some(([], 9))
            && DecodeBody(c, 1, 8) == Some([0, QUOTE])
  {
    var c: bytes := [QUOTE, BACKSLASH, LETTER_U, 49, 50, 51, BACKSLASH, BACKSLASH, QUOTE, 0];
    assert ScanEnd(c, 8) == Some(8);
    assert ScanEnd(c, 6) == Some(8);
    assert ScanEnd(c, 5) == Some(8);
    assert ScanEnd(c, 4) == Some(8);
    assert ScanEnd(c, 3) == Some(8);
    assert ScanEnd(c, 1) == Some(8);
    assert HexValue(c[6]) == None;
    assert Hex4(c, 3) == 0;
    assert Utf16Literal(c, 1, 8) == (6, [0]);
    assert DecodeBody(c, 9, 8) == Some([]);
    assert SimpleEscape(c[8]) == Some(QUOTE);
    assert DecodeBody(c, 7, 8) == Prepend([QUOTE], Some([])) == Some([QUOTE] + []);
    assert [QUOTE] + [] == [QUOTE];
    var nul: bytes := [0];
    assert DecodeBody(c, 1, 8) == Some(nul + [QUOTE]);
    assert nul + [QUOTE] == [0, QUOTE];
  }
}
