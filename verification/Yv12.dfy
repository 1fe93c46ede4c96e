/**
  The preview conversion of libcamera/cameraHal.cpp, from interleaved 4:2:2 (bytes Y U Y V for two pixels of a
  row) to planar YV12 (all Y, then a V and a U plane of half the width and half the height).
 */
module Yv12 {

  type byte = x: int | 0 <= x < 256

  predicate Even(w: nat, h: nat) {
    w % 2 == 0 && h % 2 == 0
  }

  /** The size of so many rows of width w. */
  function Pixels(w: nat, rows: nat): nat {
    rows * w
  }

  /** Where the pixel at (row, col) starts in an interleaved frame of width w. */
  function At(w: nat, row: nat, col: nat): nat {
    2 * Pixels(w, row) + 2 * col
  }

  /** Where the chroma sample of the two-by-two block around (row, col) is in its plane. */
  function SampleIndex(w: nat, row: nat, col: nat): nat {
    Pixels(w / 2, row / 2) + col / 2
  }

  // ----- offsets -----

  lemma Times(a: nat, b: nat, c: nat)
    requires a <= b
    ensures a * c <= b * c
  {
  }

  lemma NextRow(w: nat, i: nat, h: nat)
    requires i < h
    ensures Pixels(w, 0) == 0 && Pixels(w, i + 1) == Pixels(w, i) + w <= Pixels(w, h)
  {
    Times(i + 1, h, w);
  }

  lemma Quarter(w: nat, h: nat)
    requires Even(w, h)
    ensures Pixels(w, h) == 4 * Pixels(w / 2, h / 2)
  {
    var a, b := w / 2, h / 2;
    assert h * w == (2 * b) * (2 * a) == 4 * (b * a);
  }

  /** The n-th sample in reading order is the one at block row r and block column c. */
  lemma SampleIs(cw: nat, r: nat, c: nat, n: nat)
    requires c < cw && n == Pixels(cw, r) + c
    ensures n / cw == r && n % cw == c
  {
    var d := n / cw;
    if d < r {
      Times(d + 1, r, cw);
    } else if d > r {
      Times(r + 1, d, cw);
    }
  }

  lemma SampleInside(w: nat, h: nat, m: nat)
    requires Even(w, h) && m < Pixels(w, h) / 4
    ensures w > 0 && m / (w / 2) < h / 2
  {
    Quarter(w, h);
    assert w != 0;
    var d := m / (w / 2);
    if d >= h / 2 {
      Times(h / 2, d, w / 2);
    }
  }

  lemma AtBound(w: nat, h: nat, row: nat, col: nat)
    requires row < h && col < w && w % 2 == 0
    ensures At(w, row, col) < 2 * Pixels(w, h) && (col % 2 == 0 ==> At(w, row, col) + 3 < 2 * Pixels(w, h))
  {
    NextRow(w, row, h);
    hide Pixels;
  }

  lemma IndexBound(w: nat, h: nat, row: nat, col: nat)
    requires Even(w, h) && row < h && col < w
    ensures SampleIndex(w, row, col) < Pixels(w, h) / 4 == Pixels(w / 2, h / 2)
  {
    Quarter(w, h);
    NextRow(w / 2, row / 2, h / 2);
    hide Pixels;
  }

  // ----- the conversion -----

  /** Byte `off` of a pixel: 0 is its Y; at an even column, 1 and 3 are the U and V it shares with the next pixel. */
  function Sample(src: seq<byte>, w: nat, h: nat, row: nat, col: nat, off: nat): byte
    requires Even(w, h) && |src| >= 2 * Pixels(w, h) && row < h && col < w && (off == 0 || (col % 2 == 0 && off < 4))
  {
    AtBound(w, h, row, col);
    src[At(w, row, col) + off]
  }

  /** The truncated mean */
  function Mean(a: byte, b: byte): byte {
    (a as int + b as int) / 2
  }

  /**
    The m-th sample of a chroma plane: the mean of the two rows of its two-by-two block; off is 1 for U and 3
    for V.
   */
  function ChromaAt(src: seq<byte>, w: nat, h: nat, m: nat, off: nat): byte
    requires Even(w, h) && |src| >= 2 * Pixels(w, h) && m < Pixels(w, h) / 4 && off < 4
  {
    SampleInside(w, h, m);
    var row, col := 2 * (m / (w / 2)), 2 * (m % (w / 2));
    Mean(Sample(src, w, h, row, col, off), Sample(src, w, h, row + 1, col, off))
  }

  function Luma(src: seq<byte>, n: nat): (r: seq<byte>)
    requires |src| >= 2 * n
    ensures |r| == n && forall k :: 0 <= k < n ==> r[k] == src[2 * k]
  {
    seq(n, k requires 0 <= k < n => src[2 * k])
  }

  function Chroma(src: seq<byte>, w: nat, h: nat, off: nat): (r: seq<byte>)
    requires Even(w, h) && |src| >= 2 * Pixels(w, h) && off < 4
    ensures |r| == Pixels(w, h) / 4 && forall m :: 0 <= m < |r| ==> r[m] == ChromaAt(src, w, h, m, off)
  {
    seq(Pixels(w, h) / 4, m requires 0 <= m < Pixels(w, h) / 4 => ChromaAt(src, w, h, m, off))
  }

  function Converted(src: seq<byte>, w: nat, h: nat): (r: seq<byte>)
    requires Even(w, h) && |src| >= 2 * Pixels(w, h)
    ensures |r| == Pixels(w, h) * 3 / 2
  {
    Quarter(w, h);
    Luma(src, Pixels(w, h)) + Chroma(src, w, h, 3) + Chroma(src, w, h, 1)
  }

  /** The first m samples of both chroma planes are in place, and nothing else has changed. */
  ghost predicate Planes(d: seq<byte>, was: seq<byte>, src: seq<byte>, w: nat, h: nat, m: nat)
    requires Even(w, h) && |src| >= 2 * Pixels(w, h)
  {
    var n, q := Pixels(w, h), Pixels(w, h) / 4;
    && |d| == |was| >= n + q + q && m <= q
    && (forall k :: 0 <= k < |d| && !(n <= k < n + m) && !(n + q <= k < n + q + m) ==> d[k] == was[k])
    && (forall k :: n <= k < n + m ==> d[k] == ChromaAt(src, w, h, k - n, 3))
    && (forall k :: n + q <= k < n + q + m ==> d[k] == ChromaAt(src, w, h, k - n - q, 1))
  }

  /** The conversion writes exactly width * height * 3 / 2 bytes, all inside the buffers, and nothing behind them. */
  method Yuv422iToYV12(dest: array<byte>, src: array<byte>, width: nat, height: nat)
    requires Even(width, height) && dest != src
    requires src.Length >= 2 * Pixels(width, height) && dest.Length >= Pixels(width, height) * 3 / 2
    modifies dest
    ensures dest[..Pixels(width, height) * 3 / 2] == Converted(src[..], width, height)
    ensures dest[Pixels(width, height) * 3 / 2..] == old(dest[Pixels(width, height) * 3 / 2..])
  {
    hide ChromaAt, Pixels, Converted, Luma, Planes;
    Quarter(width, height);
    var d := CopyLuma(dest, src, width, height);
    ghost var copied := dest[..];
    MeanChroma(dest, src, d, width, height);
    BothDone(old(dest[..]), copied, dest[..], src[..], width, height);
  }

  /** The first n bytes are the Y bytes of src, and nothing else has changed. */
  ghost predicate CopyOf(d: seq<byte>, was: seq<byte>, src: seq<byte>, n: nat) {
    && |d| == |was| >= n && |src| >= 2 * n
    && (forall k :: 0 <= k < n ==> d[k] == src[2 * k])
    && (forall k :: n <= k < |d| ==> d[k] == was[k])
  }

  /** The first loop */
  method CopyLuma(dest: array<byte>, src: array<byte>, width: nat, height: nat) returns (d: nat)
    requires width % 2 == 0 && dest != src
    requires src.Length >= 2 * Pixels(width, height) && dest.Length >= Pixels(width, height)
    modifies dest
    ensures d == Pixels(width, height) && dest[..d] == Luma(src[..], d) && dest[d..] == old(dest[d..])
  {
    ghost var was := dest[..];
    d := 0;
    var s1, i := 0, 0;
    assert Pixels(width, 0) == 0;
    hide Pixels, CopyOf;
    CopyStarts(was, src[..]);
    while i < height
      invariant i <= height && d == Pixels(width, i) <= Pixels(width, height) && s1 == 2 * d
      invariant CopyOf(dest[..], was, src[..], d)
    {
      NextRow(width, i, height);
      NextRow(width, i + 1, height + 1);
      RowFits(width, i, height);
      d, s1 := CopyRow(dest, src, d, s1, width, was);
      i := i + 1;
    }
    CopyDone(dest[..], was, src[..], d);
  }

  lemma RowFits(w: nat, i: nat, h: nat)
    requires i < h
    ensures Pixels(w, i + 1) <= Pixels(w, h)
  {
    Times(i + 1, h, w);
  }

  lemma CopyStarts(was: seq<byte>, src: seq<byte>)
    ensures CopyOf(was, was, src, 0)
  {
  }

  /** One row of it */
  method CopyRow(dest: array<byte>, src: array<byte>, d0: nat, s0: nat, width: nat, ghost was: seq<byte>)
      returns (d: nat, s1: nat)
    requires width % 2 == 0 && dest != src && s0 == 2 * d0
    requires d0 + width <= dest.Length && 2 * (d0 + width) <= src.Length && CopyOf(dest[..], was, src[..], d0)
    modifies dest
    ensures d == d0 + width && s1 == 2 * d && CopyOf(dest[..], was, src[..], d)
  {
    hide CopyOf;
    d, s1 := d0, s0;
    var j := 0;
    while j < width
      invariant j <= width && j % 2 == 0 && d == d0 + j && s1 == 2 * d
      invariant CopyOf(dest[..], was, src[..], d)
    {
      ghost var now := dest[..];
      dest[d] := src[s1];
      d := d + 1;
      dest[d] := src[s1 + 2];
      d := d + 1;
      CopyNext(now, dest[..], was, src[..], d - 2);
      s1 := s1 + 4;
      j := j + 2;
    }
  }

  lemma CopyNext(d: seq<byte>, d': seq<byte>, was: seq<byte>, src: seq<byte>, n: nat)
    requires CopyOf(d, was, src, n) && n + 2 <= |d| == |d'| && 2 * n + 4 <= |src|
    requires d'[n] == src[2 * n] && d'[n + 1] == src[2 * n + 2]
    requires forall k :: 0 <= k < |d| && k != n && k != n + 1 ==> d'[k] == d[k]
    ensures CopyOf(d', was, src, n + 2)
  {
  }

  lemma CopyDone(d: seq<byte>, was: seq<byte>, src: seq<byte>, n: nat)
    requires CopyOf(d, was, src, n)
    ensures d[..n] == Luma(src, n) && d[n..] == was[n..]
  {
  }

  /** The second loop: V from d on, then U */
  method MeanChroma(dest: array<byte>, src: array<byte>, d: nat, width: nat, height: nat)
    requires Even(width, height) && dest != src && d == Pixels(width, height)
    requires src.Length >= 2 * Pixels(width, height) && dest.Length >= d + d / 4 + d / 4
    modifies dest
    ensures Planes(dest[..], old(dest[..]), src[..], width, height, d / 4)
  {
    hide ChromaAt, Planes, Mean, Even;
    var s, s1 := 0, width * 2;
    ghost var r, m, was := 0, 0, dest[..];
    ghost var cw, ch := ChromaStarts(was, src[..], width, height);
    ghost var q := Pixels(cw, ch);
    var vd, ud := d, d + Pixels(width, height) / 4;
    hide At, Pixels;
    var i := 0;
    while i < height
      invariant i == 2 * r <= height == 2 * ch && m == Pixels(cw, r) <= q
      invariant s == At(width, i, 0) && s1 == s + 2 * width && vd == d + m && ud == d + q + m
      invariant Planes(dest[..], was, src[..], width, height, m)
    {
      NextRow(cw, r, ch);
      s, s1, ud, vd := MeanRow(dest, src, s, s1, ud, vd, width, height, cw, r, m, was);
      m := m + cw;
      AtNextRows(width, i, height);
      s := s1;
      s1 := s1 + width * 2;
      i := i + 2;
      r := r + 1;
    }
  }

  /** One pair of rows of it; m samples are done before. */
  method MeanRow(dest: array<byte>, src: array<byte>, s0: nat, t0: nat, ud0: nat, vd0: nat, width: nat,
                 ghost height: nat, ghost cw: nat, ghost r: nat, ghost m: nat, ghost was: seq<byte>)
      returns (s: nat, s1: nat, ud: nat, vd: nat)
    requires Even(width, height) && dest != src && src.Length >= 2 * Pixels(width, height)
    requires width == 2 * cw && 2 * r < height && m == Pixels(cw, r)
    requires s0 == At(width, 2 * r, 0) && t0 == s0 + 2 * width
    requires vd0 == Pixels(width, height) + m && ud0 == Pixels(width, height) + Pixels(width, height) / 4 + m
    requires ud0 + cw <= dest.Length && m + cw <= Pixels(width, height) / 4
    requires dest.Length >= Pixels(width, height) + Pixels(width, height) / 4 + Pixels(width, height) / 4
    requires Planes(dest[..], was, src[..], width, height, m)
    modifies dest
    ensures s == At(width, 2 * r, width) && s1 == s + 2 * width && vd == vd0 + cw && ud == ud0 + cw
    ensures Planes(dest[..], was, src[..], width, height, m + cw)
  {
    hide ChromaAt, Planes, Mean, Even, At, Pixels;
    s, s1, ud, vd := s0, t0, ud0, vd0;
    var j := 0;
    ghost var c := 0;
    while j < width
      invariant j == 2 * c <= width
      invariant s == At(width, 2 * r, j) && s1 == s + 2 * width && vd == vd0 + c && ud == ud0 + c
      invariant Planes(dest[..], was, src[..], width, height, m + c)
    {
      ChromaIs(src[..], width, height, cw, r, c, m + c);
      ghost var now := dest[..];
      dest[ud] := Mean(src[s + 1], src[s1 + 1]);
      dest[vd] := Mean(src[s + 3], src[s1 + 3]);
      PlanesNext(now, dest[..], was, src[..], width, height, m + c);
      ud, vd := ud + 1, vd + 1;
      AtNext(width, 2 * r, j);
      s, s1 := s + 4, s1 + 4;
      j := j + 2;
      c := c + 1;
    }
  }

  lemma ChromaStarts(was: seq<byte>, src: seq<byte>, w: nat, h: nat) returns (cw: nat, ch: nat)
    requires Even(w, h) && |src| >= 2 * Pixels(w, h) && |was| >= Pixels(w, h) + Pixels(w, h) / 4 + Pixels(w, h) / 4
    ensures w == 2 * cw && h == 2 * ch
    ensures At(w, 0, 0) == 0 && Pixels(cw, 0) == 0 && Pixels(cw, ch) == Pixels(w, h) / 4
    ensures Planes(was, was, src, w, h, 0)
  {
    hide ChromaAt;
    Quarter(w, h);
    cw, ch := w / 2, h / 2;
  }

  lemma AtNext(w: nat, i: nat, j: nat)
    ensures At(w, i, j + 2) == At(w, i, j) + 4
  {
    hide Pixels;
  }

  lemma AtNextRows(w: nat, i: nat, h: nat)
    requires i + 2 <= h
    ensures At(w, i + 2, 0) == At(w, i, w) + 2 * w
  {
    NextRow(w, i, h);
    NextRow(w, i + 1, h);
    hide Pixels;
  }

  /** One more sample of each plane. */
  lemma PlanesNext(d: seq<byte>, d': seq<byte>, was: seq<byte>, src: seq<byte>, w: nat, h: nat, m: nat)
    requires Even(w, h) && |src| >= 2 * Pixels(w, h)
    requires Planes(d, was, src, w, h, m) && m < Pixels(w, h) / 4 && |d'| == |d|
    requires var n, q := Pixels(w, h), Pixels(w, h) / 4;
      && d'[n + m] == ChromaAt(src, w, h, m, 3) && d'[n + q + m] == ChromaAt(src, w, h, m, 1)
      && forall k :: 0 <= k < |d| && k != n + m && k != n + q + m ==> d'[k] == d[k]
    ensures Planes(d', was, src, w, h, m + 1)
  {
    hide ChromaAt, Pixels;
  }

  lemma PlanesDone(d: seq<byte>, was: seq<byte>, src: seq<byte>, w: nat, h: nat)
    requires Even(w, h) && |src| >= 2 * Pixels(w, h) && Planes(d, was, src, w, h, Pixels(w, h) / 4)
    ensures var n, q := Pixels(w, h), Pixels(w, h) / 4;
      && |d| == |was| >= n + q + q && d[..n] == was[..n] && d[n + q + q..] == was[n + q + q..]
      && d[n..n + q] == Chroma(src, w, h, 3) && d[n + q..n + q + q] == Chroma(src, w, h, 1)
  {
    hide ChromaAt, Pixels;
  }

  lemma BothDone(was: seq<byte>, copied: seq<byte>, d: seq<byte>, src: seq<byte>, w: nat, h: nat)
    requires Even(w, h) && |src| >= 2 * Pixels(w, h) && |copied| == |was| >= Pixels(w, h) * 3 / 2
    requires copied[..Pixels(w, h)] == Luma(src, Pixels(w, h)) && copied[Pixels(w, h)..] == was[Pixels(w, h)..]
    requires Planes(d, copied, src, w, h, Pixels(w, h) / 4)
    ensures |d| == |was| && d[..Pixels(w, h) * 3 / 2] == Converted(src, w, h)
    ensures d[Pixels(w, h) * 3 / 2..] == was[Pixels(w, h) * 3 / 2..]
  {
    hide ChromaAt, Pixels, Luma, Chroma;
    var n, q := Pixels(w, h), Pixels(w, h) / 4;
    Quarter(w, h);
    PlanesDone(d, copied, src, w, h);
    assert d[..n + q + q] == d[..n] + d[n..n + q] + d[n + q..n + q + q];
    assert copied[n + q + q..] == copied[n..][q + q..] == was[n..][q + q..] == was[n + q + q..];
  }

  lemma ChromaIs(src: seq<byte>, w: nat, h: nat, cw: nat, r: nat, c: nat, m: nat)
    requires Even(w, h) && |src| >= 2 * Pixels(w, h) && 2 * r < h && c < cw && w == 2 * cw
    requires m == Pixels(cw, r) + c
    ensures m < Pixels(w, h) / 4
    ensures var top := At(w, 2 * r, 2 * c);
      && top + 2 * w + 3 < |src|
      && ChromaAt(src, w, h, m, 1) == Mean(src[top + 1], src[top + 2 * w + 1])
      && ChromaAt(src, w, h, m, 3) == Mean(src[top + 3], src[top + 2 * w + 3])
  {
    hide Mean, Pixels, At;
    ChromaSite(w, h, cw, r, c, m);
  }

  lemma ChromaSite(w: nat, h: nat, cw: nat, r: nat, c: nat, m: nat)
    requires Even(w, h) && 2 * r < h && c < cw && w == 2 * cw && m == Pixels(cw, r) + c
    ensures m < Pixels(w, h) / 4 && m / (w / 2) == r && m % (w / 2) == c && 2 * r + 1 < h
    ensures At(w, 2 * r + 1, 2 * c) == At(w, 2 * r, 2 * c) + 2 * w
    ensures At(w, 2 * r + 1, 2 * c) + 3 < 2 * Pixels(w, h)
  {
    hide Pixels;
    assert w / 2 == cw && 2 * r / 2 == r && 2 * c / 2 == c;
    IndexBound(w, h, 2 * r, 2 * c);
    SampleIs(cw, r, c, m);
    AtBound(w, h, 2 * r + 1, 2 * c);
    NextRow(w, 2 * r, h);
  }

  // ----- what the planes mean -----

  predicate Has(out: seq<byte>, k: nat, v: byte) {
    k < |out| && out[k] == v
  }

  /** The mean of the chroma of the two rows of the two-by-two block around a pixel. */
  function BlockMean(src: seq<byte>, w: nat, h: nat, row: nat, col: nat, off: nat): byte
    requires Even(w, h) && |src| >= 2 * Pixels(w, h) && row < h && col < w && off < 4
  {
    var r, l := row / 2 * 2, col / 2 * 2;
    Mean(Sample(src, w, h, r, l, off), Sample(src, w, h, r + 1, l, off))
  }

  lemma ChromaHas(src: seq<byte>, w: nat, h: nat, row: nat, col: nat, off: nat)
    requires Even(w, h) && |src| >= 2 * Pixels(w, h) && row < h && col < w && off < 4
    ensures Has(Chroma(src, w, h, off), SampleIndex(w, row, col), BlockMean(src, w, h, row, col, off))
  {
    IndexBound(w, h, row, col);
    SampleIs(w / 2, row / 2, col / 2, SampleIndex(w, row, col));
    hide Mean, Pixels;
  }

  /** Pixel by pixel: the Y plane keeps Y; the first plane after it has V and the second U. */
  lemma PixelsConverted(src: seq<byte>, w: nat, h: nat, row: nat, col: nat)
    requires Even(w, h) && |src| >= 2 * Pixels(w, h) && row < h && col < w
    ensures var out, n, c := Converted(src, w, h), Pixels(w, h), SampleIndex(w, row, col);
      && Has(out, Pixels(w, row) + col, Sample(src, w, h, row, col, 0))
      && Has(out, n + c, BlockMean(src, w, h, row, col, 3))
      && Has(out, n + n / 4 + c, BlockMean(src, w, h, row, col, 1))
  {
    AtBound(w, h, row, col);
    IndexBound(w, h, row, col);
    ChromaHas(src, w, h, row, col, 3);
    ChromaHas(src, w, h, row, col, 1);
    hide BlockMean, Pixels, Chroma, SampleIndex;
  }

  lemma MeanTruncates(a: byte, b: byte)
    ensures var x: int := Mean(a, b); 2 * x <= a as int + b as int <= 2 * x + 1
  {
  }

  lemma BlockBytes(src: seq<byte>, w: nat, h: nat, row: nat, col: nat, p: nat, off: nat)
    requires Even(w, h) && |src| >= 2 * Pixels(w, h) && row < h && col < w && row % 2 == 0 && col % 2 == 0 && off < 4
    requires p == Pixels(w, row) + col
    ensures var x: int := BlockMean(src, w, h, row, col, off);
      && 2 * p + 2 * w + off < |src|
      && 2 * x <= src[2 * p + off] as int + src[2 * p + 2 * w + off] as int <= 2 * x + 1
  {
    assert row / 2 * 2 == row && col / 2 * 2 == col && row + 1 < h;
    NextRow(w, row, h);
    hide Mean, Pixels;
    AtBound(w, h, row, col);
    AtBound(w, h, row + 1, col);
    MeanTruncates(Sample(src, w, h, row, col, off), Sample(src, w, h, row + 1, col, off));
  }

  /** Byte by byte, the Y plane: every other byte of the source. */
  lemma LumaBytes(src: seq<byte>, w: nat, h: nat, row: nat, col: nat, p: nat)
    requires w % 2 == 0 && h % 2 == 0 && |src| >= 2 * (h * w) && row < h && col < w && p == row * w + col
    ensures var out := Converted(src, w, h);
      p < |out| == h * w * 3 / 2 && 2 * p < |src| && out[p] == src[2 * p]
  {
    AtBound(w, h, row, col);
    PixelsConverted(src, w, h, row, col);
    hide Converted, Chroma, SampleIndex, BlockMean;
  }

  lemma SiteIs(w: nat, h: nat, row: nat, col: nat, n: nat, p: nat, c: nat)
    requires n == h * w && p == row * w + col && c == row / 2 * (w / 2) + col / 2
    ensures Pixels(w, h) == n && Pixels(w, row) + col == p && SampleIndex(w, row, col) == c
  {
  }

  /**
    Byte by byte, the chroma of the two-by-two block at pixel p, the c-th of its kind, in a frame of n pixels: its V
    in the plane behind Y and its U in the plane behind that are the means of the bytes of its upper and its lower
    row, rounded down.
   */
  lemma ChromaBytes(src: seq<byte>, w: nat, h: nat, row: nat, col: nat, n: nat, p: nat, c: nat)
    requires w % 2 == 0 && h % 2 == 0 && row < h && col < w && row % 2 == 0 && col % 2 == 0
    requires n == h * w && p == row * w + col && c == row / 2 * (w / 2) + col / 2 && |src| >= 2 * n
    ensures var out := Converted(src, w, h);
      && n + n / 4 + c < |out| && 2 * p + 2 * w + 3 < |src|
      && var v: int, u: int := out[n + c], out[n + n / 4 + c];
      && 2 * v <= src[2 * p + 3] as int + src[2 * p + 2 * w + 3] as int <= 2 * v + 1
      && 2 * u <= src[2 * p + 1] as int + src[2 * p + 2 * w + 1] as int <= 2 * u + 1
  {
    hide Converted, Chroma, SampleIndex, BlockMean, Pixels, Sample;
    SiteIs(w, h, row, col, n, p, c);
    PixelsConverted(src, w, h, row, col);
    BlockBytes(src, w, h, row, col, p, 1);
    BlockBytes(src, w, h, row, col, p, 3);
  }

  predicate Paired(src: seq<byte>, w: nat, h: nat, row: nat, col: nat, off: nat)
    requires Even(w, h) && |src| >= 2 * Pixels(w, h) && row + 1 < h && col < w && col % 2 == 0 && off < 4
  {
    Sample(src, w, h, row, col, off) == Sample(src, w, h, row + 1, col, off)
  }

  /** Both rows of every block carry the same chroma. */
  ghost predicate RowsPaired(src: seq<byte>, w: nat, h: nat)
    requires Even(w, h) && |src| >= 2 * Pixels(w, h)
  {
    forall row, col, off :: 0 <= row < h && row % 2 == 0 && 0 <= col < w && col % 2 == 0 && (off == 1 || off == 3)
      ==> Paired(src, w, h, row, col, off)
  }

  /** A reader of YV12 that gives each block's chroma to both its rows sees the original chroma of every pixel. */
  ghost predicate Recovered(src: seq<byte>, w: nat, h: nat)
    requires Even(w, h) && |src| >= 2 * Pixels(w, h)
  {
    forall row, col, off :: 0 <= row < h && 0 <= col < w && col % 2 == 0 && (off == 1 || off == 3)
      ==> Has(Chroma(src, w, h, off), SampleIndex(w, row, col), Sample(src, w, h, row, col, off))
  }

  lemma SameBlock(w: nat, row: nat, col: nat)
    requires row % 2 == 0
    ensures SampleIndex(w, row + 1, col) == SampleIndex(w, row, col)
  {
    assert (row + 1) / 2 == row / 2;
  }

  lemma PairedIsRecovered(src: seq<byte>, w: nat, h: nat, row: nat, col: nat, off: nat)
    requires Even(w, h) && |src| >= 2 * Pixels(w, h) && RowsPaired(src, w, h)
    requires row < h && col < w && col % 2 == 0 && (off == 1 || off == 3)
    ensures Has(Chroma(src, w, h, off), SampleIndex(w, row, col), Sample(src, w, h, row, col, off))
  {
    hide Sample, Chroma, SampleIndex, Pixels, Mean;
    ChromaHas(src, w, h, row, col, off);
    var r := row / 2 * 2;
    BlockCorner(row, col, r);
    assert Paired(src, w, h, r, col, off);
    MeanSame(Sample(src, w, h, r, col, off));
  }

  lemma BlockCorner(row: nat, col: nat, r: nat)
    requires r == row / 2 * 2 && col % 2 == 0
    ensures col / 2 * 2 == col && (row == r || row == r + 1) && r % 2 == 0
  {
  }

  lemma MeanSame(a: byte)
    ensures Mean(a, a) == a
  {
  }

  lemma RecoveredIsPaired(src: seq<byte>, w: nat, h: nat, row: nat, col: nat, off: nat)
    requires Even(w, h) && |src| >= 2 * Pixels(w, h) && Recovered(src, w, h)
    requires row < h && row % 2 == 0 && col < w && col % 2 == 0 && (off == 1 || off == 3)
    ensures row + 1 < h && Paired(src, w, h, row, col, off)
  {
    hide Sample, Chroma, SampleIndex, Pixels;
    SameBlock(w, row, col);
    assert Has(Chroma(src, w, h, off), SampleIndex(w, row, col), Sample(src, w, h, row, col, off));
    assert Has(Chroma(src, w, h, off), SampleIndex(w, row + 1, col), Sample(src, w, h, row + 1, col, off));
  }

  /** The conversion loses nothing exactly when the rows of every pair carry the same chroma. */
  lemma LosslessIffRowsPaired(src: seq<byte>, w: nat, h: nat)
    requires Even(w, h) && |src| >= 2 * Pixels(w, h)
    ensures RowsPaired(src, w, h) <==> Recovered(src, w, h)
  {
    hide Sample, Chroma, SampleIndex, Pixels, Has, Paired;
    if RowsPaired(src, w, h) {
      forall row, col, off | 0 <= row < h && 0 <= col < w && col % 2 == 0 && (off == 1 || off == 3)
        ensures Has(Chroma(src, w, h, off), SampleIndex(w, row, col), Sample(src, w, h, row, col, off))
      {
        PairedIsRecovered(src, w, h, row, col, off);
      }
    }
    if Recovered(src, w, h) {
      forall row, col, off | 0 <= row < h && row % 2 == 0 && 0 <= col < w && col % 2 == 0 && (off == 1 || off == 3)
        ensures Paired(src, w, h, row, col, off)
      {
        RecoveredIsPaired(src, w, h, row, col, off);
      }
    }
  }
}
