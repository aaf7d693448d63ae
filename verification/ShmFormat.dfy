/** Normalisation of top-left source pixels to the bottom-left RGBA rows of
    the shared-memory wire format. */
module ShmFormat {
  import opened Bytes
  import opened Raster
  import opened Memory

  datatype Channels = RGBA | BGRA

  const PIXEL_BYTES_LIMIT: nat := 256 * 1024 * 1024

  /** Which source byte of a pixel becomes byte c of the result. */
  function Swizzle(ch: Channels, c: nat): (s: nat)
    requires c < 4
    ensures s < 4
  {
    if ch == BGRA && c != 1 && c != 3 then 2 - c else c
  }

  predicate SourceFits(source: seq<byte>, stride: nat, w: nat, h: nat) {
    w * 4 <= stride && stride * h <= |source|
  }

  lemma SourceBound(source: seq<byte>, stride: nat, w: nat, h: nat, x: nat, y: nat)
    requires SourceFits(source, stride, w, h) && x < w && y < h
    ensures y * stride + x * 4 + 4 <= y * stride + w * 4 <= |source|
  {
    assert (y + 1) * stride <= h * stride;
  }

  /** The normalised canvas, byte by byte: rows upside down, channels swapped. */
  function GlImage(source: seq<byte>, stride: nat, w: nat, h: nat, ch: Channels): (g: seq<byte>)
    requires w > 0 && SourceFits(source, stride, w, h)
    ensures |g| == w * h * 4
  {
    seq(w * h * 4, i requires 0 <= i < w * h * 4 =>
      CoordsAddr(w, h, i);
      SourceBound(source, stride, w, h, Col(w, i), h - 1 - Row(w, i));
      source[(h - 1 - Row(w, i)) * stride + Col(w, i) * 4 + Swizzle(ch, i % 4)])
  }

  /** On tight rows the normalisation undoes itself. */
  lemma GlImageInvolution(source: seq<byte>, w: nat, h: nat, ch: Channels)
    requires w > 0 && |source| == w * h * 4
    ensures SourceFits(source, w * 4, w, h) && SourceFits(GlImage(source, w * 4, w, h, ch), w * 4, w, h)
    ensures GlImage(GlImage(source, w * 4, w, h, ch), w * 4, w, h, ch) == source
  {
    assert w * 4 * h == w * h * 4;
    var g := GlImage(source, w * 4, w, h, ch);
    forall i: nat | i < |source| ensures GlImage(g, w * 4, w, h, ch)[i] == source[i] {
      InvolutionAt(source, g, w, h, ch, i);
    }
  }

  lemma GlImageAt(source: seq<byte>, w: nat, h: nat, ch: Channels, i: nat)
    requires w > 0 && |source| == w * h * 4 && i < w * h * 4
    requires SourceFits(source, w * 4, w, h)
    ensures Col(w, i) < w && Row(w, i) < h
    ensures Addr(w, Col(w, i), h - 1 - Row(w, i)) + 4 <= |source|
    ensures GlImage(source, w * 4, w, h, ch)[i]
            == source[Addr(w, Col(w, i), h - 1 - Row(w, i)) + Swizzle(ch, i % 4)]
  {
    CoordsAddr(w, h, i);
    var x, y := Col(w, i), h - 1 - Row(w, i);
    AddrBound(w, h, x, y);
    assert y * (w * 4) + x * 4 == Addr(w, x, y);
  }

  lemma InvolutionAt(source: seq<byte>, g: seq<byte>, w: nat, h: nat, ch: Channels, i: nat)
    requires w > 0 && |source| == w * h * 4 && i < w * h * 4
    requires SourceFits(source, w * 4, w, h) && g == GlImage(source, w * 4, w, h, ch)
    requires SourceFits(g, w * 4, w, h)
    ensures GlImage(g, w * 4, w, h, ch)[i] == source[i]
  {
    GlImageAt(g, w, h, ch, i);
    var x, y, c := Col(w, i), h - 1 - Row(w, i), Swizzle(ch, i % 4);
    var j := Addr(w, x, y) + c;
    AddrCoords(w, x, y, c);
    GlImageAt(source, w, h, ch, j);
    CoordsAddr(w, h, i);
  }

  // ----- The conversion loops -----

  /** One converted row. */
  function RowImage(row: seq<byte>, w: nat, ch: Channels): (r: seq<byte>)
    requires |row| == w * 4
    ensures |r| == w * 4
  {
    seq(w * 4, j requires 0 <= j < w * 4 => row[j / 4 * 4 + Swizzle(ch, j % 4)])
  }

  method ConvertRow(dst: array<byte>, to: nat, src: seq<byte>, from: nat, w: nat, ch: Channels)
    requires to + w * 4 <= dst.Length && from + w * 4 <= |src|
    modifies dst
    ensures dst[..] == old(dst[..])[..to] + RowImage(src[from..from + w * 4], w, ch) + old(dst[..])[to + w * 4..]
  {
    if ch == RGBA {
      Memcpy(dst, to, src, from, w * 4);
      assert RowImage(src[from..from + w * 4], w, ch) == src[from..from + w * 4];
    } else {
      SwapRow(dst, to, src[from..from + w * 4], w);
    }
  }

  lemma MiddleGrows(row: seq<byte>, before: seq<byte>, mid: seq<byte>, after: seq<byte>, to: nat, k: nat, n: nat)
    requires k + n <= |row| && to + |row| <= |before|
    requires mid == before[..to] + row[..k] + before[to + k..]
    requires after == mid[..to + k] + row[k..k + n] + mid[to + k + n..]
    ensures after == before[..to] + row[..k + n] + before[to + k + n..]
  {
  }

  method SwapPixel(dst: array<byte>, to: nat, src: seq<byte>, from: nat)
    requires to + 4 <= dst.Length && from + 4 <= |src|
    modifies dst
    ensures dst[..] == old(dst[..])[..to] + Swapped(src[from..from + 4]) + old(dst[..])[to + 4..]
  {
    dst[to + 0] := src[from + 2];
    dst[to + 1] := src[from + 1];
    dst[to + 2] := src[from + 0];
    dst[to + 3] := src[from + 3];
  }

  function Swapped(p: seq<byte>): seq<byte>
    requires |p| == 4
  {
    [p[2], p[1], p[0], p[3]]
  }

  method SwapNext(dst: array<byte>, to: nat, src: seq<byte>, w: nat, x: nat, ghost before: seq<byte>)
    requires to + w * 4 <= dst.Length == |before| && |src| == w * 4 && x < w
    requires dst[..] == before[..to] + RowImage(src, w, BGRA)[..x * 4] + before[to + x * 4..]
    modifies dst
    ensures dst[..] == before[..to] + RowImage(src, w, BGRA)[..x * 4 + 4] + before[to + x * 4 + 4..]
  {
    ghost var mid := dst[..];
    PixelOfRow(src, w, x);
    SwapPixel(dst, to + x * 4, src, x * 4);
    MiddleGrows(RowImage(src, w, BGRA), before, mid, dst[..], to, x * 4, 4);
  }

  method SwapRow(dst: array<byte>, to: nat, src: seq<byte>, w: nat)
    requires to + w * 4 <= dst.Length && |src| == w * 4
    modifies dst
    ensures dst[..] == old(dst[..])[..to] + RowImage(src, w, BGRA) + old(dst[..])[to + w * 4..]
  {
    ghost var row := RowImage(src, w, BGRA);
    ghost var before := dst[..];
    var x := 0;
    while x < w
      invariant x <= w
      invariant |dst[..]| == |before|
      invariant dst[..] == before[..to] + row[..x * 4] + before[to + x * 4..]
    {
      SwapNext(dst, to, src, w, x, before);
      x := x + 1;
    }
  }

  lemma PixelOfRow(src: seq<byte>, w: nat, x: nat)
    requires |src| == w * 4 && x < w
    ensures RowImage(src, w, BGRA)[x * 4..x * 4 + 4] == Swapped(src[x * 4..x * 4 + 4])
  {
    var r := RowImage(src, w, BGRA);
    assert r[x * 4] == src[x * 4 + 2] && r[x * 4 + 1] == src[x * 4 + 1];
    assert r[x * 4 + 2] == src[x * 4] && r[x * 4 + 3] == src[x * 4 + 3];
  }

  /** One row of the result is one converted row of the source. */
  predicate ConvertedRow(image: seq<byte>, to: nat, source: seq<byte>, from: nat, w: nat, ch: Channels) {
    && to + w * 4 <= |image| && from + w * 4 <= |source|
    && image[to..to + w * 4] == RowImage(source[from..from + w * 4], w, ch)
  }

  /** Result row h-1-y is the converted source row y. */
  predicate RowOfImage(image: seq<byte>, source: seq<byte>, stride: nat, w: nat, h: nat, ch: Channels, y: nat) {
    y < h && ConvertedRow(image, (h - 1 - y) * (w * 4), source, y * stride, w, ch)
  }

  lemma GlImageRow(source: seq<byte>, stride: nat, w: nat, h: nat, ch: Channels, y: nat)
    requires w > 0 && SourceFits(source, stride, w, h) && y < h
    ensures RowOfImage(GlImage(source, stride, w, h, ch), source, stride, w, h, ch, y)
  {
    var g := GlImage(source, stride, w, h, ch);
    SourceBound(source, stride, w, h, 0, y);
    AddrBound(w, h, w - 1, h - 1 - y);
    var at := (h - 1 - y) * (w * 4);
    assert at == Addr(w, 0, h - 1 - y);
    var row := source[y * stride..y * stride + w * 4];
    forall j: nat | j < w * 4 ensures g[at + j] == RowImage(row, w, ch)[j] {
      AddrCoords(w, j / 4, h - 1 - y, j % 4);
      assert Addr(w, j / 4, h - 1 - y) + j % 4 == at + j;
      assert row[j / 4 * 4 + Swizzle(ch, j % 4)] == source[y * stride + j / 4 * 4 + Swizzle(ch, j % 4)];
    }
    assert g[at..at + w * 4] == RowImage(row, w, ch);
  }

  lemma SuffixGrows(full: seq<byte>, before: seq<byte>, after: seq<byte>, at: nat, n: nat)
    requires at + n <= |full| == |before| && before[at + n..] == full[at + n..]
    requires after == before[..at] + full[at..at + n] + before[at + n..]
    ensures after[at..] == full[at..]
  {
  }

  method ConvertRows(dst: array<byte>, source: seq<byte>, stride: nat, w: nat, h: nat, ch: Channels,
                     ghost image: seq<byte>)
    requires dst.Length == |image| == h * (w * 4)
    requires forall y | 0 <= y < h :: RowOfImage(image, source, stride, w, h, ch, y)
    modifies dst
    ensures dst[..] == image
  {
    var y := 0;
    ghost var rest := |image|;
    while y < h
      invariant y <= h
      invariant rest == (h - y) * (w * 4)
      invariant 0 <= rest <= |image|
      invariant dst[rest..] == image[rest..]
    {
      assert RowOfImage(image, source, stride, w, h, ch, y);
      MulSucc(h - 1 - y, w * 4);
      MulSucc(y, stride);
      var to, from := (h - 1 - y) * (w * 4), y * stride;
      ghost var before := dst[..];
      ConvertRow(dst, to, source, from, w, ch);
      SuffixGrows(image, before, dst[..], to, w * 4);
      rest := to;
      y := y + 1;
    }
  }

  /** Fails, leaving the vector alone, exactly on a missing source, an empty or
      oversized canvas or a stride below one row. */
  method ToGlRgba(source: Option<seq<byte>>, stride: nat, width: int, height: int, ch: Channels, before: seq<byte>)
    returns (ok: bool, result: seq<byte>)
    requires source.Some? && width > 0 && height > 0 && width * 4 <= stride ==> stride * height <= |source.value|
    ensures ok <==> source.Some? && width > 0 && height > 0 && width * height * 4 <= PIXEL_BYTES_LIMIT
                    && width * 4 <= stride
    ensures ok ==> result == GlImage(source.value, stride, width, height, ch)
    ensures !ok ==> result == before
  {
    if source.None? || width <= 0 || height <= 0 || width * height * 4 > PIXEL_BYTES_LIMIT || width * 4 > stride {
      return false, before;
    }
    result := Convert(source.value, stride, width, height, ch);
    return true, result;
  }

  method Convert(source: seq<byte>, stride: nat, w: nat, h: nat, ch: Channels) returns (result: seq<byte>)
    requires w > 0 && SourceFits(source, stride, w, h)
    ensures result == GlImage(source, stride, w, h, ch)
  {
    var n := h * (w * 4);
    assert n == w * h * 4;
    var dst := new byte[n];
    ghost var image := GlImage(source, stride, w, h, ch);
    forall y | 0 <= y < h ensures RowOfImage(image, source, stride, w, h, ch, y) {
      GlImageRow(source, stride, w, h, ch, y);
    }
    ConvertRows(dst, source, stride, w, h, ch, image);
    result := dst[..];
  }
}
