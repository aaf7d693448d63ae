/** Row-major canvases of four-byte pixels, and rectangle writes on them. */
module Raster {
  import opened Bytes

  datatype Rect = Rect(x: nat, y: nat, width: nat, height: nat)

  /** Byte address of pixel (x, y) on a canvas w pixels wide. */
  function Addr(w: nat, x: nat, y: nat): nat {
    (y * w + x) * 4
  }

  /** Column and row of the pixel that byte i belongs to. */
  function Col(w: nat, i: nat): nat
    requires w > 0
  {
    i / 4 % w
  }

  function Row(w: nat, i: nat): nat
    requires w > 0
  {
    i / 4 / w
  }

  lemma MulSucc(a: nat, b: nat)
    ensures 0 <= a * b
    ensures (a + 1) * b == a * b + b
  {
  }

  lemma MulLe(a: nat, b: nat, c: nat)
    requires a <= b
    ensures a * c <= b * c
  {
  }

  lemma MulAtLeast(d: nat, w: nat)
    ensures d == 0 || d * w >= w
  {
  }

  lemma DivModUnique(a: nat, w: nat, q: nat, r: nat)
    requires w > 0 && r < w && a == q * w + r
    ensures a / w == q && a % w == r
  {
    assert a == (a / w) * w + a % w;
    var d := a / w - q;
    assert d * w == r - a % w;
    MulAtLeast(if d >= 0 then d else -d, w);
  }

  /** Addresses and coordinates are inverse to each other. */
  lemma AddrCoords(w: nat, x: nat, y: nat, c: nat)
    requires x < w && c < 4
    ensures Col(w, Addr(w, x, y) + c) == x
    ensures Row(w, Addr(w, x, y) + c) == y
    ensures (Addr(w, x, y) + c) % 4 == c
  {
    var i := Addr(w, x, y) + c;
    assert i / 4 == y * w + x;
    DivModUnique(i / 4, w, y, x);
  }

  lemma CoordsAddr(w: nat, h: nat, i: nat)
    requires w > 0 && i < w * h * 4
    ensures Col(w, i) < w && Row(w, i) < h
    ensures i == Addr(w, Col(w, i), Row(w, i)) + i % 4
  {
    var p := i / 4;
    assert p < w * h;
    assert p == (p / w) * w + p % w;
    if p / w >= h {
      assert (p / w) * w >= h * w;
    }
  }

  lemma AddrBound(w: nat, h: nat, x: nat, y: nat)
    requires x < w && y < h
    ensures Addr(w, x, y) + 4 <= w * h * 4
  {
    assert (y + 1) * w <= h * w;
  }

  /** Does the rectangle contain the pixel of byte i? */
  predicate Covers(r: Rect, w: nat, i: nat)
    requires w > 0
  {
    && r.x <= Col(w, i) < r.x + r.width
    && r.y <= Row(w, i) < r.y + r.height
  }

  predicate Inside(r: Rect, w: nat, h: nat) {
    r.width > 0 && r.height > 0 && r.x + r.width <= w && r.y + r.height <= h
  }

  lemma InsideArea(r: Rect, w: nat, h: nat)
    requires Inside(r, w, h)
    ensures 0 < r.width * r.height <= w * h
  {
    assert r.width * r.height <= w * r.height <= w * h;
  }

  /** The canvas with one rectangle replaced by the same rectangle of source. */
  function Patch(canvas: seq<byte>, w: nat, r: Rect, source: seq<byte>): (p: seq<byte>)
    requires w > 0 && |source| == |canvas|
    ensures |p| == |canvas|
  {
    seq(|canvas|, i requires 0 <= i < |canvas| => if Covers(r, w, i) then source[i] else canvas[i])
  }

  /** Two canvases hold the same bytes outside the rectangle. */
  predicate AgreeOutside(a: seq<byte>, b: seq<byte>, w: nat, r: Rect)
    requires w > 0
  {
    |a| == |b| && forall i | 0 <= i < |a| && !Covers(r, w, i) :: a[i] == b[i]
  }

  /** Patching in every difference yields the source, and nothing less does. */
  lemma PatchCompletes(canvas: seq<byte>, w: nat, r: Rect, source: seq<byte>)
    requires w > 0 && |source| == |canvas|
    ensures Patch(canvas, w, r, source) == source <==> AgreeOutside(canvas, source, w, r)
  {
    var p := Patch(canvas, w, r, source);
    if p == source {
      forall i | 0 <= i < |canvas| && !Covers(r, w, i) ensures canvas[i] == source[i] {
        assert p[i] == canvas[i];
      }
    }
  }
}
