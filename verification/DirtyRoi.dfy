/** Dirty rectangles in top-left coordinates, and the single bottom-left
    rectangle the producer derives from them. */
module DirtyRoi {
  import opened Bytes
  import opened Raster
  import opened ShmDelta
  import opened ShmFormat

  const MAX_DIRTY: nat := 32
  const INT_LIMIT: int := 0x8000_0000

  /** CEF's rectangle of signed 32-bit integers. */
  datatype DirtyRect = DirtyRect(x: int, y: int, width: int, height: int)

  /** Is the pixel in column x of the top-left row y inside some rectangle? */
  predicate Hit(dirty: seq<DirtyRect>, x: nat, y: nat) {
    exists k :: 0 <= k < |dirty|
      && dirty[k].x <= x < dirty[k].x + dirty[k].width && dirty[k].y <= y < dirty[k].y + dirty[k].height
  }

  /** Two top-left sources hold the same pixels outside the dirty list. */
  ghost predicate SourcesAgree(a: seq<byte>, strideA: nat, b: seq<byte>, strideB: nat, w: nat, h: nat,
                               dirty: seq<DirtyRect>) {
    && SourceFits(a, strideA, w, h) && SourceFits(b, strideB, w, h)
    && forall x: nat, y: nat, c: nat | x < w && y < h && c < 4 && !Hit(dirty, x, y) ::
         SourceByte(a, strideA, x, y, c) == SourceByte(b, strideB, x, y, c)
  }

  function SourceByte(a: seq<byte>, stride: nat, x: nat, y: nat, c: nat): Option<byte> {
    var i := y * stride + x * 4 + c;
    if i < |a| then Some(a[i]) else None
  }

  /** The same, said of the normalised bottom-left canvases. */
  ghost predicate CanvasesAgree(a: seq<byte>, b: seq<byte>, w: nat, h: nat, dirty: seq<DirtyRect>) {
    && w > 0 && |a| == |b| == w * h * 4
    && forall i: nat | i < |a| && Row(w, i) < h && !Hit(dirty, Col(w, i), h - 1 - Row(w, i)) :: a[i] == b[i]
  }

  lemma GlImageSource(a: seq<byte>, stride: nat, w: nat, h: nat, ch: Channels, i: nat)
    requires w > 0 && SourceFits(a, stride, w, h) && i < w * h * 4
    ensures Col(w, i) < w && Row(w, i) < h
    ensures SourceByte(a, stride, Col(w, i), h - 1 - Row(w, i), Swizzle(ch, i % 4))
            == Some(GlImage(a, stride, w, h, ch)[i])
  {
    CoordsAddr(w, h, i);
    SourceBound(a, stride, w, h, Col(w, i), h - 1 - Row(w, i));
  }

  lemma NormalisingKeepsAgreement(a: seq<byte>, strideA: nat, b: seq<byte>, strideB: nat, w: nat, h: nat,
                                  dirty: seq<DirtyRect>, ch: Channels)
    requires w > 0 && SourcesAgree(a, strideA, b, strideB, w, h, dirty)
    ensures CanvasesAgree(GlImage(a, strideA, w, h, ch), GlImage(b, strideB, w, h, ch), w, h, dirty)
  {
    var ga, gb := GlImage(a, strideA, w, h, ch), GlImage(b, strideB, w, h, ch);
    forall i: nat | i < |ga| && Row(w, i) < h && !Hit(dirty, Col(w, i), h - 1 - Row(w, i)) ensures ga[i] == gb[i] {
      GlImageSource(a, strideA, w, h, ch, i);
      GlImageSource(b, strideB, w, h, ch, i);
    }
  }

  // ----- Choosing the rectangle -----

  /** A clipped rectangle, as its left, top, right and bottom edges. */
  datatype Edges = Edges(x0: int, y0: int, x1: int, y1: int)

  function Clip(r: DirtyRect, w: int, h: int): Edges {
    Edges(if r.x > 0 then r.x else 0, if r.y > 0 then r.y else 0,
          if r.x + r.width < w then r.x + r.width else w, if r.y + r.height < h then r.y + r.height else h)
  }

  /** Does clipping to the canvas leave something of a non-empty rectangle? */
  predicate Clippable(r: DirtyRect, w: int, h: int) {
    r.width > 0 && r.height > 0 && Clip(r, w, h).x0 < Clip(r, w, h).x1 && Clip(r, w, h).y0 < Clip(r, w, h).y1
  }

  function Join(e: Edges, f: Edges): Edges {
    Edges(if f.x0 < e.x0 then f.x0 else e.x0, if f.y0 < e.y0 then f.y0 else e.y0,
          if f.x1 > e.x1 then f.x1 else e.x1, if f.y1 > e.y1 then f.y1 else e.y1)
  }

  /** Edges around the clipped rectangles of a non-empty list. */
  function Bounds(dirty: seq<DirtyRect>, w: int, h: int): Edges {
    if dirty == [] then Edges(w, h, 0, 0)
    else Join(Bounds(dirty[..|dirty| - 1], w, h), Clip(dirty[|dirty| - 1], w, h))
  }

  predicate AllClippable(dirty: seq<DirtyRect>, w: int, h: int) {
    forall k | 0 <= k < |dirty| :: Clippable(dirty[k], w, h)
  }

  /** The bounds enclose each clipped rectangle and stay inside the canvas. */
  lemma {:induction false} BoundsEnclose(dirty: seq<DirtyRect>, w: int, h: int)
    requires dirty != [] && w > 0 && h > 0 && AllClippable(dirty, w, h)
    ensures var e := Bounds(dirty, w, h);
            && 0 <= e.x0 < e.x1 <= w && 0 <= e.y0 < e.y1 <= h
            && forall k | 0 <= k < |dirty| ::
                 var c := Clip(dirty[k], w, h);
                 e.x0 <= c.x0 && e.y0 <= c.y0 && c.x1 <= e.x1 && c.y1 <= e.y1
  {
    var n := |dirty| - 1;
    assert Clippable(dirty[n], w, h);
    if n > 0 {
      BoundsEnclose(dirty[..n], w, h);
    }
  }

  /** And they are no larger than needed: each side lies on some rectangle. */
  lemma {:induction false} BoundsTouch(dirty: seq<DirtyRect>, w: int, h: int)
    requires dirty != [] && w > 0 && h > 0 && AllClippable(dirty, w, h)
    ensures var e := Bounds(dirty, w, h);
            && (exists k :: 0 <= k < |dirty| && Clip(dirty[k], w, h).x0 == e.x0)
            && (exists k :: 0 <= k < |dirty| && Clip(dirty[k], w, h).y0 == e.y0)
            && (exists k :: 0 <= k < |dirty| && Clip(dirty[k], w, h).x1 == e.x1)
            && (exists k :: 0 <= k < |dirty| && Clip(dirty[k], w, h).y1 == e.y1)
  {
    var n := |dirty| - 1;
    var e, c := Bounds(dirty[..n], w, h), Clip(dirty[n], w, h);
    assert Clippable(dirty[n], w, h);
    assert Bounds(dirty, w, h) == Join(e, c);
    if n > 0 {
      BoundsTouch(dirty[..n], w, h);
      var a :| 0 <= a < n && Clip(dirty[..n][a], w, h).x0 == e.x0;
      var b :| 0 <= b < n && Clip(dirty[..n][b], w, h).y0 == e.y0;
      var f :| 0 <= f < n && Clip(dirty[..n][f], w, h).x1 == e.x1;
      var g :| 0 <= g < n && Clip(dirty[..n][g], w, h).y1 == e.y1;
      assert dirty[a] == dirty[..n][a] && dirty[b] == dirty[..n][b];
      assert dirty[f] == dirty[..n][f] && dirty[g] == dirty[..n][g];
    }
  }

  function ToGlY(top: int, rectHeight: int, canvasHeight: int): int {
    canvasHeight - top - rectHeight
  }

  /** The chosen rectangle, if the list allows one. */
  function ChosenRoi(dirty: seq<DirtyRect>, w: int, h: int): (roi: Option<Delta>)
  {
    if dirty == [] || |dirty| > MAX_DIRTY || w <= 0 || h <= 0 || !AllClippable(dirty, w, h) then None
    else
      BoundsEnclose(dirty, w, h);
      var e := Bounds(dirty, w, h);
      if (e.x1 - e.x0) * (e.y1 - e.y0) * 2 >= w * h then None
      else Some(Delta(DELTA_MAGIC, e.x0, ToGlY(e.y0, e.y1 - e.y0, h), e.x1 - e.x0, e.y1 - e.y0))
  }

  lemma ChosenRoiValidates(dirty: seq<DirtyRect>, w: int, h: int)
    requires w < INT_LIMIT && h < INT_LIMIT && ChosenRoi(dirty, w, h).Some?
    ensures var d := ChosenRoi(dirty, w, h).value;
            d.Fields32() && d.magic == DELTA_MAGIC && Inside(d.Area(), w, h)
            && d.width * d.height * 2 < w * h && Validate(Some(d), w, h, d.TrueLength())
  {
    BoundsEnclose(dirty, w, h);
    var d := ChosenRoi(dirty, w, h).value;
    InsideArea(d.Area(), w, h);
    CanvasFits(w, h);
    ValidateIsExact(d, w, h, d.TrueLength());
  }

  /** Canvases with signed 32-bit sides never wrap 64-bit lengths. */
  lemma CanvasFits(w: nat, h: nat)
    requires w < INT_LIMIT && h < INT_LIMIT
    ensures w * h * 4 + HEADER_SIZE < U64_LIMIT
  {
    MulLe(w, 0x7FFF_FFFF, h);
  }

  /** Whatever a dirty rectangle hits lies, flipped, inside the chosen one. */
  lemma HitIsCovered(dirty: seq<DirtyRect>, w: nat, h: nat, x: nat, y: nat)
    requires ChosenRoi(dirty, w, h).Some? && x < w && y < h && Hit(dirty, x, y)
    ensures var r := ChosenRoi(dirty, w, h).value;
            r.x <= x < r.x + r.width && r.y <= h - 1 - y < r.y + r.height
  {
    BoundsEnclose(dirty, w, h);
    var k :| 0 <= k < |dirty|
      && dirty[k].x <= x < dirty[k].x + dirty[k].width && dirty[k].y <= y < dirty[k].y + dirty[k].height;
    assert Clippable(dirty[k], w, h);
  }

  /** Dirty rectangles survive the flip: canvases that agree outside the dirty
      list agree outside the single chosen rectangle. */
  lemma DirtySurvivesFlip(a: seq<byte>, b: seq<byte>, w: nat, h: nat, dirty: seq<DirtyRect>)
    requires ChosenRoi(dirty, w, h).Some? && CanvasesAgree(a, b, w, h, dirty)
    ensures AgreeOutside(a, b, w, ChosenRoi(dirty, w, h).value.Area())
  {
    var r := ChosenRoi(dirty, w, h).value.Area();
    forall i: nat | i < |a| && !Covers(r, w, i) ensures a[i] == b[i] {
      CoordsAddr(w, h, i);
      if Hit(dirty, Col(w, i), h - 1 - Row(w, i)) {
        HitIsCovered(dirty, w, h, Col(w, i), h - 1 - Row(w, i));
      }
    }
  }

  /** The loop over the list; the out-parameter is written on success only. */
  method ChooseShmRoi(dirty: seq<DirtyRect>, w: int, h: int, roiBefore: Delta) returns (ok: bool, roi: Delta)
    requires w < INT_LIMIT && h < INT_LIMIT
    ensures ok <==> ChosenRoi(dirty, w, h).Some?
    ensures roi == if ok then ChosenRoi(dirty, w, h).value else roiBefore
  {
    roi := roiBefore;
    if |dirty| == 0 || |dirty| > MAX_DIRTY || w <= 0 || h <= 0 {
      return false, roi;
    }
    var e := Edges(w, h, 0, 0);
    var k := 0;
    while k < |dirty|
      invariant k <= |dirty|
      invariant AllClippable(dirty[..k], w, h)
      invariant e == Bounds(dirty[..k], w, h)
    {
      var r := dirty[k];
      var c := Clip(r, w, h);
      assert dirty[..k + 1][..k] == dirty[..k] && dirty[..k + 1][k] == r;
      if r.width <= 0 || r.height <= 0 || c.x0 >= c.x1 || c.y0 >= c.y1 {
        assert !Clippable(dirty[k], w, h);
        return false, roi;
      }
      e := Join(e, c);
      k := k + 1;
    }
    assert dirty[..k] == dirty;
    BoundsEnclose(dirty, w, h);
    if (e.x1 - e.x0) * (e.y1 - e.y0) * 2 >= w * h {
      return false, roi;
    }
    return true, Delta(DELTA_MAGIC, e.x0, ToGlY(e.y0, e.y1 - e.y0, h), e.x1 - e.x0, e.y1 - e.y0);
  }
}
