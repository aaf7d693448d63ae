/** The staging blit: dirty rectangles copied upside down one by one, or the
    whole frame at once. */
module Staging {
  import opened Bytes
  import opened Raster
  import opened ShmFormat
  import opened DirtyRoi

  /** The texture the driver samples for a linear CEF buffer: top-left rows of
      RGBA pixels, whatever the channel order in memory. */
  function Texture(plane: seq<byte>, stride: nat, w: nat, h: nat, ch: Channels): (t: seq<byte>)
    requires w > 0 && SourceFits(plane, stride, w, h)
    ensures |t| == w * h * 4
  {
    seq(w * h * 4, i requires 0 <= i < w * h * 4 =>
      CoordsAddr(w, h, i);
      SourceBound(plane, stride, w, h, Col(w, i), Row(w, i));
      plane[Row(w, i) * stride + Col(w, i) * 4 + Swizzle(ch, i % 4)])
  }

  /** The image upside down. */
  function Flip(t: seq<byte>, w: nat, h: nat): (f: seq<byte>)
    requires w > 0 && |t| == w * h * 4
    ensures |f| == w * h * 4
  {
    seq(w * h * 4, i requires 0 <= i < w * h * 4 =>
      CoordsAddr(w, h, i);
      AddrBound(w, h, Col(w, i), h - 1 - Row(w, i));
      t[Addr(w, Col(w, i), h - 1 - Row(w, i)) + i % 4])
  }

  /** Reading a fully staged buffer back gives the canvas that the CPU path
      would have produced from the same plane. */
  lemma StagedIsNormalised(plane: seq<byte>, stride: nat, w: nat, h: nat, ch: Channels)
    requires w > 0 && SourceFits(plane, stride, w, h)
    ensures Flip(Texture(plane, stride, w, h, ch), w, h) == GlImage(plane, stride, w, h, ch)
  {
    var t := Texture(plane, stride, w, h, ch);
    forall i: nat | i < w * h * 4 ensures Flip(t, w, h)[i] == GlImage(plane, stride, w, h, ch)[i] {
      CoordsAddr(w, h, i);
      var x, y := Col(w, i), h - 1 - Row(w, i);
      AddrBound(w, h, x, y);
      AddrCoords(w, x, y, i % 4);
    }
  }

  // ----- One framebuffer blit -----

  datatype BlitRect = BlitRect(sx0: int, sy0: int, sx1: int, sy1: int, dx0: int, dy0: int, dx1: int, dy1: int)

  /** The clip and flip of one dirty rectangle; None when nothing is left. */
  function DirtyBlitRect(r: DirtyRect, w: int, h: int): (b: Option<BlitRect>)
    ensures b.Some? <==> w > 0 && h > 0 && Clippable(r, w, h)
    ensures b.Some? ==> b.value.dx0 == b.value.sx0 && b.value.dx1 == b.value.sx1
                        && b.value.dy0 == h - b.value.sy0 && b.value.dy1 == h - b.value.sy1
  {
    if w <= 0 || h <= 0 || r.width <= 0 || r.height <= 0 then None
    else
      var c := Clip(r, w, h);
      if c.x1 <= c.x0 || c.y1 <= c.y0 then None
      else Some(BlitRect(c.x0, c.y0, c.x1, c.y1, c.x0, h - c.y0, c.x1, h - c.y1))
  }

  function FullBlitRect(w: int, h: int): BlitRect {
    BlitRect(0, 0, w, h, 0, h, w, 0)
  }

  function Scaled(t: real, num: real, den: real): real
    requires den != 0.0
  {
    t * num / den
  }

  /** Nearest sampling along one axis: the source cell under the centre of the
      destination cell d (OpenGL 4.6 core, section 18.3.1). */
  function NearestSource(d: int, s0: int, s1: int, d0: int, d1: int): int
    requires d0 != d1
  {
    (s0 as real + Scaled(d as real + 0.5 - d0 as real, (s1 - s0) as real, (d1 - d0) as real)).Floor
  }

  lemma NearestStraight(d: int, s0: int, s1: int, d0: int, d1: int)
    requires d0 != d1 && s1 - s0 == d1 - d0
    ensures NearestSource(d, s0, s1, d0, d1) == s0 + d - d0
  {
    var t, n := d as real + 0.5 - d0 as real, (d1 - d0) as real;
    assert (s1 - s0) as real == n;
    CancelSame(t, n);
    FloorOfHalf(s0 + d - d0, s0 as real + Scaled(t, n, n));
  }

  lemma NearestFlipped(d: int, s0: int, s1: int, d0: int, d1: int)
    requires d0 != d1 && s1 - s0 == d0 - d1
    ensures NearestSource(d, s0, s1, d0, d1) == s0 + d0 - 1 - d
  {
    var t, n := d as real + 0.5 - d0 as real, (d1 - d0) as real;
    assert (s1 - s0) as real == -n;
    CancelOpposite(t, n);
    FloorOfHalf(s0 + d0 - 1 - d, s0 as real + Scaled(t, -n, n));
  }

  lemma FloorOfHalf(k: int, x: real)
    requires x == k as real + 0.5
    ensures x.Floor == k
  {
  }

  lemma CancelSame(t: real, n: real)
    requires n != 0.0
    ensures Scaled(t, n, n) == t
  {
  }

  lemma CancelOpposite(t: real, n: real)
    requires n != 0.0
    ensures Scaled(t, -n, n) == -t
  {
    assert t * (-n) == (-t) * n;
    CancelSame(-t, n);
  }

  predicate Between(d: int, a: int, b: int) {
    a <= d < b || b <= d < a
  }

  /** glBlitFramebuffer with GL_NEAREST, both images w by h. Cells whose source
      falls outside the read buffer are undefined in GL; they keep their value
      here and no blit below has any. */
  function Blit(dst: seq<byte>, src: seq<byte>, w: nat, h: nat, b: BlitRect): (r: seq<byte>)
    requires w > 0 && |src| == |dst| == w * h * 4
    ensures |r| == |dst|
  {
    seq(w * h * 4, i requires 0 <= i < w * h * 4 => BlitByte(dst, src, w, h, b, i))
  }

  function BlitByte(dst: seq<byte>, src: seq<byte>, w: nat, h: nat, b: BlitRect, i: nat): byte
    requires w > 0 && |src| == |dst| == w * h * 4 && i < w * h * 4
  {
    var x, y := Col(w, i), Row(w, i);
    if Between(x, b.dx0, b.dx1) && Between(y, b.dy0, b.dy1) then
      var sx, sy := NearestSource(x, b.sx0, b.sx1, b.dx0, b.dx1), NearestSource(y, b.sy0, b.sy1, b.dy0, b.dy1);
      if 0 <= sx < w && 0 <= sy < h then AddrBound(w, h, sx, sy); src[Addr(w, sx, sy) + i % 4] else dst[i]
    else dst[i]
  }

  /** Does the dirty rectangle hit the top-left pixel that byte i flips to? */
  predicate HitOne(r: DirtyRect, w: nat, h: nat, i: nat)
    requires w > 0
  {
    r.x <= Col(w, i) < r.x + r.width && r.y <= h - 1 - Row(w, i) < r.y + r.height
  }

  lemma DirtyBlitByte(dst: seq<byte>, src: seq<byte>, w: nat, h: nat, r: DirtyRect, i: nat)
    requires w > 0 && |src| == |dst| == w * h * 4 && i < w * h * 4 && DirtyBlitRect(r, w, h).Some?
    ensures BlitByte(dst, src, w, h, DirtyBlitRect(r, w, h).value, i)
            == if HitOne(r, w, h, i) then Flip(src, w, h)[i] else dst[i]
  {
    CoordsAddr(w, h, i);
    var b := DirtyBlitRect(r, w, h).value;
    var x, y := Col(w, i), Row(w, i);
    NearestStraight(x, b.sx0, b.sx1, b.dx0, b.dx1);
    NearestFlipped(y, b.sy0, b.sy1, b.dy0, b.dy1);
  }

  lemma FullBlitIsFlip(dst: seq<byte>, src: seq<byte>, w: nat, h: nat)
    requires w > 0 && h > 0 && |src| == |dst| == w * h * 4
    ensures Blit(dst, src, w, h, FullBlitRect(w, h)) == Flip(src, w, h)
  {
    var b := FullBlitRect(w, h);
    forall i: nat | i < w * h * 4 ensures BlitByte(dst, src, w, h, b, i) == Flip(src, w, h)[i] {
      CoordsAddr(w, h, i);
      NearestStraight(Col(w, i), b.sx0, b.sx1, b.dx0, b.dx1);
      NearestFlipped(Row(w, i), b.sy0, b.sy1, b.dy0, b.dy1);
    }
  }

  // ----- The sequence of partial blits -----

  /** The blits of a list of clippable rectangles, first to last. */
  function BlitAll(dst: seq<byte>, src: seq<byte>, w: nat, h: nat, dirty: seq<DirtyRect>): (r: seq<byte>)
    requires w > 0 && |src| == |dst| == w * h * 4
    requires forall k | 0 <= k < |dirty| :: DirtyBlitRect(dirty[k], w, h).Some?
    ensures |r| == |dst|
  {
    if dirty == [] then dst
    else
      var n := |dirty| - 1;
      Blit(BlitAll(dst, src, w, h, dirty[..n]), src, w, h, DirtyBlitRect(dirty[n], w, h).value)
  }

  predicate HitAny(dirty: seq<DirtyRect>, w: nat, h: nat, i: nat)
    requires w > 0
  {
    exists k :: 0 <= k < |dirty| && HitOne(dirty[k], w, h, i)
  }

  lemma HitAnySnoc(dirty: seq<DirtyRect>, w: nat, h: nat, i: nat)
    requires w > 0 && dirty != []
    ensures var n := |dirty| - 1; HitAny(dirty, w, h, i) <==> HitAny(dirty[..n], w, h, i) || HitOne(dirty[n], w, h, i)
  {
    var n := |dirty| - 1;
    if HitAny(dirty[..n], w, h, i) {
      var k :| 0 <= k < n && HitOne(dirty[..n][k], w, h, i);
      assert HitOne(dirty[k], w, h, i);
    }
    if HitAny(dirty, w, h, i) {
      var k :| 0 <= k < |dirty| && HitOne(dirty[k], w, h, i);
      assert k < n ==> HitOne(dirty[..n][k], w, h, i);
    }
  }

  lemma {:induction false} BlitAllByte(dst: seq<byte>, src: seq<byte>, w: nat, h: nat, dirty: seq<DirtyRect>, i: nat)
    requires w > 0 && |src| == |dst| == w * h * 4 && i < w * h * 4
    requires forall k | 0 <= k < |dirty| :: DirtyBlitRect(dirty[k], w, h).Some?
    ensures BlitAll(dst, src, w, h, dirty)[i]
            == if HitAny(dirty, w, h, i) then Flip(src, w, h)[i] else dst[i]
  {
    if dirty != [] {
      var n := |dirty| - 1;
      BlitAllByte(dst, src, w, h, dirty[..n], i);
      var mid := BlitAll(dst, src, w, h, dirty[..n]);
      DirtyBlitByte(mid, src, w, h, dirty[n], i);
      assert BlitAll(dst, src, w, h, dirty)[i] == BlitByte(mid, src, w, h, DirtyBlitRect(dirty[n], w, h).value, i);
      HitAnySnoc(dirty, w, h, i);
      hide HitAny, HitOne;
    }
  }

  /** Partial staging refines full staging: on an image that already agrees
      with the new frame outside the dirty list, the partial blits leave the
      same bytes as one full flipped blit. */
  lemma PartialEqualsFull(staged: seq<byte>, next: seq<byte>, w: nat, h: nat, dirty: seq<DirtyRect>)
    requires w > 0 && h > 0 && |next| == |staged| == w * h * 4
    requires forall k | 0 <= k < |dirty| :: DirtyBlitRect(dirty[k], w, h).Some?
    requires CanvasesAgree(staged, Flip(next, w, h), w, h, dirty)
    ensures BlitAll(staged, next, w, h, dirty) == Flip(next, w, h)
    ensures BlitAll(staged, next, w, h, dirty) == Blit(staged, next, w, h, FullBlitRect(w, h))
  {
    var full, partial := Flip(next, w, h), BlitAll(staged, next, w, h, dirty);
    FullBlitIsFlip(staged, next, w, h);
    forall i: nat | i < w * h * 4 ensures partial[i] == full[i] {
      CoordsAddr(w, h, i);
      BlitAllByte(staged, next, w, h, dirty, i);
      if Hit(dirty, Col(w, i), h - 1 - Row(w, i)) {
        var k :| 0 <= k < |dirty|
          && dirty[k].x <= Col(w, i) < dirty[k].x + dirty[k].width
          && dirty[k].y <= h - 1 - Row(w, i) < dirty[k].y + dirty[k].height;
        assert HitOne(dirty[k], w, h, i);
      }
    }
  }

  /** And on no other image: if the partial blits leave the new frame, the old
      image agreed with it outside the list. */
  lemma PartialHoldsIff(staged: seq<byte>, next: seq<byte>, w: nat, h: nat, dirty: seq<DirtyRect>)
    requires w > 0 && h > 0 && |next| == |staged| == w * h * 4
    requires forall k | 0 <= k < |dirty| :: DirtyBlitRect(dirty[k], w, h).Some?
    ensures BlitAll(staged, next, w, h, dirty) == Flip(next, w, h)
            <==> CanvasesAgree(staged, Flip(next, w, h), w, h, dirty)
  {
    var full, partial := Flip(next, w, h), BlitAll(staged, next, w, h, dirty);
    if partial == full {
      forall i: nat | i < |staged| && Row(w, i) < h && !Hit(dirty, Col(w, i), h - 1 - Row(w, i))
        ensures staged[i] == full[i]
      {
        BlitAllByte(staged, next, w, h, dirty, i);
        if HitAny(dirty, w, h, i) {
          var k :| 0 <= k < |dirty| && HitOne(dirty[k], w, h, i);
          assert Hit(dirty, Col(w, i), h - 1 - Row(w, i));
        }
      }
    } else if CanvasesAgree(staged, full, w, h, dirty) {
      PartialEqualsFull(staged, next, w, h, dirty);
    }
  }
}
