/** Row-major pixels of four bytes. */
module Pixels {
  import opened Bytes

  /** Where the pixel (x, y) of an image `width` pixels wide starts. */
  function Offset(width: nat, x: nat, y: nat): (r: nat) {
    (y * width + x) * 4
  }

  /** The bytes of an image. */
  function Size(width: nat, height: nat): (r: nat) {
    width * height * 4
  }

  lemma OneRowMore(a: nat, width: nat)
    ensures (a + 1) * width == a * width + width
  {}

  lemma {:induction false} RowsBefore(a: nat, b: nat, width: nat)
    requires a < b
    ensures a * width + width <= b * width
    decreases b
  {
    OneRowMore(b - 1, width);
    if a < b - 1 { RowsBefore(a, b - 1, width); }
  }

  lemma OffsetInside(width: nat, height: nat, x: nat, y: nat)
    requires x < width && y < height
    ensures Offset(width, x, y) + 4 <= Size(width, height)
  {
    RowsBefore(y, height, width);
    assert height * width == width * height;
  }

  function PixelAt(image: bytes, width: nat, x: nat, y: nat): (r: bytes)
    requires Offset(width, x, y) + 4 <= |image|
  {
    image[Offset(width, x, y)..Offset(width, x, y) + 4]
  }

  /** `s` copied over `f` from `at` on. */
  function Splice(f: bytes, at: nat, s: bytes): (r: bytes)
    requires at + |s| <= |f|
    ensures |r| == |f|
  {
    f[..at] + s + f[at + |s|..]
  }

  /** copy_from_slice between two slices. */
  method CopyBytes(output: array<byte>, target: nat, source: bytes, from: nat, n: nat)
    requires target + n <= output.Length && from + n <= |source|
    modifies output
    ensures output[..] == Splice(old(output[..]), target, source[from..from + n])
  {
    ghost var f := output[..];
    forall k | 0 <= k < n {
      output[target + k] := source[from + k];
    }
    assert output[..target] == f[..target];
    assert output[target..target + n] == source[from..from + n];
    assert output[target + n..] == f[target + n..];
    assert output[..] == output[..target] + output[target..target + n] + output[target + n..];
  }

  /** A run of `n` pixels copied into the row `y` at `x` changes these pixels and no others. */
  lemma SplicePixel(f: bytes, width: nat, x: nat, y: nat, s: bytes, n: nat, px: nat, py: nat)
    requires |s| == n * 4 && x + n <= width && px < width
    requires Offset(width, x, y) + |s| <= |f| && Offset(width, px, py) + 4 <= |f|
    ensures PixelAt(Splice(f, Offset(width, x, y), s), width, px, py)
         == if py == y && x <= px < x + n then s[(px - x) * 4..(px - x) * 4 + 4] else PixelAt(f, width, px, py)
  {
    hide Splice;
    var o, p := Offset(width, x, y), Offset(width, px, py);
    if py == y && x <= px < x + n {
      assert p == o + (px - x) * 4;
      SpliceInside(f, o, s, (px - x) * 4);
    } else {
      PixelsApart(width, x, y, n, px, py);
      SpliceOutside(f, o, s, p);
    }
  }

  /** A pixel that is none of `n` in a row lies before or behind them. */
  lemma PixelsApart(width: nat, x: nat, y: nat, n: nat, px: nat, py: nat)
    requires x + n <= width && px < width && !(py == y && x <= px < x + n)
    ensures Offset(width, px, py) + 4 <= Offset(width, x, y) || Offset(width, x, y) + n * 4 <= Offset(width, px, py)
  {
    if py < y { RowsBefore(py, y, width); }
    if py > y { RowsBefore(y, py, width); }
  }

  lemma SpliceInside(f: bytes, at: nat, s: bytes, k: nat)
    requires at + |s| <= |f| && k + 4 <= |s|
    ensures Splice(f, at, s)[at + k..at + k + 4] == s[k..k + 4]
  {}

  lemma SpliceOutside(f: bytes, at: nat, s: bytes, p: nat)
    requires at + |s| <= |f| && p + 4 <= |f| && (p + 4 <= at || at + |s| <= p)
    ensures Splice(f, at, s)[p..p + 4] == f[p..p + 4]
  {}
}
