/** Facts about single scanning steps of the parser. */
module JsonScan {
  import opened Bytes
  import opened JsonText

  lemma {:induction false} SkipTo(c: bytes, i: nat, j: nat)
    requires i <= j < |c| && c[j] > 32
    requires forall k :: i <= k < j ==> c[k] <= 32
    ensures Skip(c, i) == j
    decreases j - i
  {
    if i < j { SkipTo(c, i + 1, j); }
  }

  lemma HexOfChar(n: nat)
    requires n < 16
    ensures HexValue(HexChar(n)) == Some(n)
    ensures HexChar(n) != QUOTE && HexChar(n) != BACKSLASH
  {}

  /** A numeral that ends at `e` is not continued there. */
  predicate NumberEnds(c: bytes, e: nat) {
    e >= |c| || !IsNumberChar(c[e])
  }

  lemma {:induction false} NumberTextIs(c: bytes, off: nat, s: bytes, room: nat)
    requires At(c, off, s) && NumberEnds(c, off + |s|) && |s| <= room
    requires forall i :: 0 <= i < |s| ==> IsNumberChar(s[i])
    ensures NumberText(c, off, room) == s
    decreases |s|
  {
    if s != [] {
      assert s == [s[0]] + s[1..];
      AtConcat(c, off, [s[0]], s[1..]);
      AtIndex(c, off, s, 0);
      NumberTextIs(c, off + 1, s[1..], room - 1);
    }
  }

  lemma OtherWord(c: bytes, off: nat, word: bytes)
    requires off < |c| && word != [] && c[off] != word[0]
    ensures !At(c, off, word)
  {
    if off + |word| <= |c| {
      assert c[off..off + |word|][0] == c[off];
    }
  }

  lemma NotAWord(c: bytes, off: nat)
    requires off < |c| && c[off] !in {110, 102, 116}
    ensures !At(c, off, NULL_TEXT) && !At(c, off, FALSE_TEXT) && !At(c, off, TRUE_TEXT)
  {
    OtherWord(c, off, NULL_TEXT);
    OtherWord(c, off, FALSE_TEXT);
    OtherWord(c, off, TRUE_TEXT);
  }
}
