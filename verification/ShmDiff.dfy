/** The bounding-box comparison of the newest snapshot with the canvas the
    consumer acknowledged last. */
module ShmDiff {
  import opened Bytes
  import opened Raster
  import opened ShmDelta

  datatype DeltaResult = Unchanged | Full | Partial

  datatype Pixel = Pixel(x: nat, y: nat)

  /** The four-byte memcmp of the inner loop. */
  predicate Differs(a: seq<byte>, b: seq<byte>, w: nat, x: nat, y: nat) {
    var i := Addr(w, x, y);
    i + 4 <= |a| && i + 4 <= |b| && a[i..i + 4] != b[i..i + 4]
  }

  /** All differing pixels, compared one by one. */
  ghost function DiffPixels(a: seq<byte>, b: seq<byte>, w: nat, h: nat): set<Pixel> {
    set x: nat, y: nat | x < w && y < h && Differs(a, b, w, x, y) :: Pixel(x, y)
  }

  ghost predicate Contains(r: Rect, pixels: set<Pixel>) {
    forall p | p in pixels :: r.x <= p.x < r.x + r.width && r.y <= p.y < r.y + r.height
  }

  /** The smallest rectangle around a set of pixels: it contains them all and
      each of its four sides touches one. */
  ghost predicate TightBox(pixels: set<Pixel>, r: Rect) {
    && r.width > 0 && r.height > 0
    && Contains(r, pixels)
    && (exists p :: p in pixels && p.x == r.x)
    && (exists p :: p in pixels && p.x == r.x + r.width - 1)
    && (exists p :: p in pixels && p.y == r.y)
    && (exists p :: p in pixels && p.y == r.y + r.height - 1)
  }

  /** Any rectangle that contains every pixel contains the tight box. */
  lemma TightBoxIsLeast(pixels: set<Pixel>, r: Rect, s: Rect)
    requires TightBox(pixels, r) && Contains(s, pixels)
    ensures s.x <= r.x && s.y <= r.y && r.x + r.width <= s.x + s.width && r.y + r.height <= s.y + s.height
  {
    var left :| left in pixels && left.x == r.x;
    var right :| right in pixels && right.x == r.x + r.width - 1;
    var top :| top in pixels && top.y == r.y;
    var bottom :| bottom in pixels && bottom.y == r.y + r.height - 1;
  }

  lemma DiffersAtByte(a: seq<byte>, b: seq<byte>, w: nat, h: nat, i: nat)
    requires |a| == |b| == w * h * 4 && i < |a| && w > 0
    ensures a[i] != b[i] ==> Pixel(Col(w, i), Row(w, i)) in DiffPixels(a, b, w, h)
  {
    CoordsAddr(w, h, i);
    AddrBound(w, h, Col(w, i), Row(w, i));
    var at := Addr(w, Col(w, i), Row(w, i));
    assert a[at..at + 4][i % 4] == a[i] && b[at..at + 4][i % 4] == b[i];
    if a[i] != b[i] {
      assert Differs(a, b, w, Col(w, i), Row(w, i));
    }
  }

  lemma TightBoxCoversBytes(a: seq<byte>, b: seq<byte>, w: nat, h: nat, r: Rect)
    requires |a| == |b| == w * h * 4 && w > 0 && Contains(r, DiffPixels(a, b, w, h))
    ensures AgreeOutside(b, a, w, r)
  {
    forall i | 0 <= i < |a| && !Covers(r, w, i) ensures b[i] == a[i] {
      DiffersAtByte(a, b, w, h, i);
    }
  }

  lemma NoDifferenceMeansEqual(a: seq<byte>, b: seq<byte>, w: nat, h: nat)
    requires |a| == |b| == w * h * 4 && w > 0
    ensures DiffPixels(a, b, w, h) == {} <==> a == b
  {
    if DiffPixels(a, b, w, h) == {} {
      forall i | 0 <= i < |a| ensures a[i] == b[i] {
        DiffersAtByte(a, b, w, h, i);
      }
    }
  }

  /** Sending the packet for the box that FindDelta reports brings the
      consumer's baseline exactly to the current frame. */
  lemma DeltaRoundTrip(current: seq<byte>, baseline: seq<byte>, w: nat, h: nat, d: Delta)
    requires |current| == |baseline| == w * h * 4
    requires w * h * 4 + HEADER_SIZE < U64_LIMIT
    requires d.Fields32() && d.magic == DELTA_MAGIC && Inside(d.Area(), w, h)
    requires TightBox(DiffPixels(current, baseline, w, h), d.Area())
    ensures ApplyPacket(baseline, w, h, Packet(current, w, h, d)) == Some(current)
  {
    PacketRoundTrip(baseline, current, w, h, d);
    TightBoxCoversBytes(current, baseline, w, h, d.Area());
    PatchCompletes(baseline, w, d.Area(), current);
  }

  // ----- The scanning loop -----

  /** Bounds found so far, with one differing pixel remembered per side. */
  datatype Scan = Scan(x0: nat, y0: nat, x1: nat, y1: nat,
                       left: Pixel, right: Pixel, top: Pixel, bottom: Pixel)

  /** The scan has seen every pixel of the rows above y, and of row y those
      left of x. */
  ghost predicate ScanInv(pixels: set<Pixel>, w: nat, h: nat, s: Scan, y: nat, x: nat) {
    && (forall p | p in pixels && (p.y < y || (p.y == y && p.x < x)) :: s.x0 <= p.x < s.x1 && s.y0 <= p.y < s.y1)
    && (if s.x0 == w then s.y0 == h && s.x1 == 0 && s.y1 == 0
        else
          && s.x0 < s.x1 <= w && s.y0 < s.y1 <= h
          && s.left in pixels && s.right in pixels && s.top in pixels && s.bottom in pixels
          && s.left.x == s.x0 && s.right.x == s.x1 - 1 && s.top.y == s.y0 && s.bottom.y == s.y1 - 1)
  }

  /** What the four bound updates do for a differing pixel. */
  function Note(s: Scan, p: Pixel): Scan {
    Scan(if p.x < s.x0 then p.x else s.x0, if p.y < s.y0 then p.y else s.y0,
         if p.x + 1 > s.x1 then p.x + 1 else s.x1, if p.y + 1 > s.y1 then p.y + 1 else s.y1,
         if p.x < s.x0 then p else s.left, if p.x + 1 > s.x1 then p else s.right,
         if p.y < s.y0 then p else s.top, if p.y + 1 > s.y1 then p else s.bottom)
  }

  lemma ScanPixel(pixels: set<Pixel>, w: nat, h: nat, s: Scan, y: nat, x: nat)
    requires x < w && y < h && ScanInv(pixels, w, h, s, y, x)
    ensures ScanInv(pixels, w, h, if Pixel(x, y) in pixels then Note(s, Pixel(x, y)) else s, y, x + 1)
  {
  }

  lemma ScanNextRow(pixels: set<Pixel>, w: nat, h: nat, s: Scan, y: nat)
    requires forall p | p in pixels :: p.x < w
    requires ScanInv(pixels, w, h, s, y, w)
    ensures ScanInv(pixels, w, h, s, y + 1, 0)
  {
  }

  /** A row that memcmp finds equal holds no differing pixel. */
  lemma EqualRow(a: seq<byte>, b: seq<byte>, w: nat, h: nat, y: nat, at: nat, n: nat)
    requires at == Addr(w, 0, y) && n == w * 4 && at + n <= |a| && at + n <= |b|
    requires a[at..at + n] == b[at..at + n]
    ensures forall x: nat | x < w :: Pixel(x, y) !in DiffPixels(a, b, w, h)
  {
    forall x: nat | x < w ensures !Differs(a, b, w, x, y) {
      var i := Addr(w, x, y);
      assert i == at + x * 4;
      SliceOfSlice(a, at, n, x * 4, 4);
      SliceOfSlice(b, at, n, x * 4, 4);
    }
  }

  lemma ScanEqualRow(pixels: set<Pixel>, w: nat, h: nat, s: Scan, y: nat)
    requires ScanInv(pixels, w, h, s, y, 0)
    requires forall p | p in pixels :: p.x < w
    requires forall x: nat | x < w :: Pixel(x, y) !in pixels
    ensures ScanInv(pixels, w, h, s, y + 1, 0)
  {
    assert forall p | p in pixels :: p == Pixel(p.x, p.y);
  }

  lemma ScanDone(pixels: set<Pixel>, w: nat, h: nat, s: Scan)
    requires forall p | p in pixels :: p.x < w && p.y < h
    requires ScanInv(pixels, w, h, s, h, 0)
    ensures s.x0 == w <==> pixels == {}
    ensures s.x0 != w ==> s.x0 < s.x1 <= w && s.y0 < s.y1 <= h
                          && TightBox(pixels, Rect(s.x0, s.y0, s.x1 - s.x0, s.y1 - s.y0))
  {
  }

  /** The comparison of one pixel. */
  method ComparePixel(current: seq<byte>, baseline: seq<byte>, w: nat, h: nat, x: nat, y: nat)
    returns (differs: bool)
    requires |current| == |baseline| == w * h * 4 && x < w && y < h
    ensures differs <==> Pixel(x, y) in DiffPixels(current, baseline, w, h)
  {
    AddrBound(w, h, x, y);
    var i := Addr(w, x, y);
    differs := current[i..i + 4] != baseline[i..i + 4];
  }

  method ScanRow(current: seq<byte>, baseline: seq<byte>, w: nat, h: nat, y: nat, before: Scan,
                 ghost pixels: set<Pixel>)
    returns (s: Scan)
    requires y < h && |current| == |baseline| == w * h * 4
    requires pixels == DiffPixels(current, baseline, w, h)
    requires ScanInv(pixels, w, h, before, y, 0)
    ensures ScanInv(pixels, w, h, s, y + 1, 0)
  {
    s := before;
    var x := 0;
    while x < w
      invariant x <= w
      invariant ScanInv(pixels, w, h, s, y, x)
    {
      var differs := ComparePixel(current, baseline, w, h, x, y);
      ScanPixel(pixels, w, h, s, y, x);
      if differs {
        s := Note(s, Pixel(x, y));
      }
      x := x + 1;
    }
    ScanNextRow(pixels, w, h, s, y);
  }

  method ScanRows(current: seq<byte>, baseline: seq<byte>, w: nat, h: nat, ghost pixels: set<Pixel>)
    returns (s: Scan)
    requires w > 0 && |current| == |baseline| == w * h * 4
    requires pixels == DiffPixels(current, baseline, w, h)
    ensures ScanInv(pixels, w, h, s, h, 0)
  {
    var nowhere := Pixel(0, 0);
    s := Scan(w, h, 0, 0, nowhere, nowhere, nowhere, nowhere);
    var y := 0;
    while y < h
      invariant y <= h
      invariant ScanInv(pixels, w, h, s, y, 0)
    {
      AddrBound(w, h, w - 1, y);
      var i, n := Addr(w, 0, y), w * 4;
      assert i + n == Addr(w, w - 1, y) + 4;
      if current[i..i + n] == baseline[i..i + n] {
        EqualRow(current, baseline, w, h, y, i, n);
        ScanEqualRow(pixels, w, h, s, y);
      } else {
        s := ScanRow(current, baseline, w, h, y, s, pixels);
      }
      y := y + 1;
    }
  }

  /** Exactly three outcomes: no canvas to compare or a box of at least half
      the canvas (Full), equal canvases (Unchanged), or the tight box. The
      out-parameter is written in the last case only. */
  method FindDelta(current: Option<seq<byte>>, baseline: Option<seq<byte>>, w: nat, h: nat, roiBefore: Delta)
    returns (result: DeltaResult, roi: Delta)
    requires w < U32_LIMIT && h < U32_LIMIT && w * h * 4 < U64_LIMIT
    requires current.Some? ==> |current.value| == w * h * 4
    requires baseline.Some? ==> |baseline.value| == w * h * 4
    ensures result != Partial ==> roi == roiBefore
    ensures current.None? || baseline.None? || w == 0 || h == 0 ==> result == Full
    ensures current.Some? && baseline.Some? && w > 0 && h > 0 ==>
              && DeltaSpec(DiffPixels(current.value, baseline.value, w, h), w, h, result, roi)
              && (result == Unchanged <==> current.value == baseline.value)
  {
    roi := roiBefore;
    if current.None? || baseline.None? || w == 0 || h == 0 || U64(w * h * 4) > U64_LIMIT - 1 {
      return Full, roi;
    }
    ghost var pixels := DiffPixels(current.value, baseline.value, w, h);
    var s := ScanRows(current.value, baseline.value, w, h, pixels);
    ScanDone(pixels, w, h, s);
    NoDifferenceMeansEqual(current.value, baseline.value, w, h);
    result, roi := Decide(s, w, h, pixels, roi);
  }

  lemma AreaFits(box: Rect, w: nat, h: nat)
    requires Inside(box, w, h) && w * h * 4 < U64_LIMIT
    ensures U64(box.width * box.height * 2) == box.width * box.height * 2
    ensures U64(w * h) == w * h
  {
    InsideArea(box, w, h);
  }

  /** The half-area cut-off. */
  method Decide(s: Scan, w: nat, h: nat, ghost pixels: set<Pixel>, roiBefore: Delta)
    returns (result: DeltaResult, roi: Delta)
    requires w < U32_LIMIT && h < U32_LIMIT && w * h * 4 < U64_LIMIT
    requires s.x0 == w <==> pixels == {}
    requires s.x0 != w ==> s.x0 < s.x1 <= w && s.y0 < s.y1 <= h
                           && TightBox(pixels, Rect(s.x0, s.y0, s.x1 - s.x0, s.y1 - s.y0))
    ensures result != Partial ==> roi == roiBefore
    ensures DeltaSpec(pixels, w, h, result, roi)
  {
    roi := roiBefore;
    if s.x0 == w {
      return Unchanged, roi;
    }
    var box := Rect(s.x0, s.y0, s.x1 - s.x0, s.y1 - s.y0);
    AreaFits(box, w, h);
    if U64(box.width * box.height * 2) >= U64(w * h) {
      return Full, roi;
    }
    roi := Delta(DELTA_MAGIC, box.x, box.y, box.width, box.height);
    assert roi.Area() == box;
    return Partial, roi;
  }

  /** What the comparison must report, given the differing pixels. */
  ghost predicate DeltaSpec(pixels: set<Pixel>, w: nat, h: nat, result: DeltaResult, roi: Delta) {
    && (result == Unchanged <==> pixels == {})
    && (result == Partial ==>
          && roi.magic == DELTA_MAGIC && roi.Fields32() && Inside(roi.Area(), w, h)
          && TightBox(pixels, roi.Area()) && roi.width * roi.height * 2 < w * h)
    && (result == Full ==> exists r :: TightBox(pixels, r) && Inside(r, w, h) && r.width * r.height * 2 >= w * h)
  }

  // ----- The comparison as a function -----

  lemma TightBoxIsUnique(pixels: set<Pixel>, r: Rect, s: Rect)
    requires TightBox(pixels, r) && TightBox(pixels, s)
    ensures r == s
  {
    TightBoxIsLeast(pixels, r, s);
    TightBoxIsLeast(pixels, s, r);
  }

  /** The one answer the contract of FindDelta leaves open: nothing. */
  ghost function Verdict(pixels: set<Pixel>, w: nat, h: nat): (v: (DeltaResult, Delta))
    requires w < U32_LIMIT && h < U32_LIMIT
    ensures v.0 == Partial ==> v.1.magic == DELTA_MAGIC && v.1.Fields32() && Inside(v.1.Area(), w, h)
                               && TightBox(pixels, v.1.Area())
    ensures v.0 == Unchanged ==> pixels == {}
  {
    var none := Delta(0, 0, 0, 0, 0);
    if pixels == {} then (Unchanged, none)
    else if exists r :: TightBox(pixels, r) && Inside(r, w, h) && r.width * r.height * 2 < w * h then
      var r :| TightBox(pixels, r) && Inside(r, w, h) && r.width * r.height * 2 < w * h;
      (Partial, Delta(DELTA_MAGIC, r.x, r.y, r.width, r.height))
    else (Full, none)
  }

  lemma SpecDetermines(pixels: set<Pixel>, w: nat, h: nat, result: DeltaResult, roi: Delta)
    requires w < U32_LIMIT && h < U32_LIMIT && DeltaSpec(pixels, w, h, result, roi)
    ensures Verdict(pixels, w, h).0 == result
    ensures result == Partial ==> Verdict(pixels, w, h).1 == roi
  {
    if result == Partial {
      var r := roi.Area();
      assert TightBox(pixels, r) && Inside(r, w, h) && r.width * r.height * 2 < w * h;
      TightBoxIsUnique(pixels, r, Verdict(pixels, w, h).1.Area());
    } else if result == Full {
      var r :| TightBox(pixels, r) && Inside(r, w, h) && r.width * r.height * 2 >= w * h;
      forall s | TightBox(pixels, s) ensures s == r {
        TightBoxIsUnique(pixels, s, r);
      }
    }
  }
}
