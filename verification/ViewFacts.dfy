/** What every callback of the view keeps, beyond Fits: accounting, the buffers
    it points at, and the whereabouts of the newest paint. */
module ViewFacts {
  import opened Bytes
  import opened Raster
  import opened ShmDelta
  import opened ShmFormat
  import opened ShmDiff
  import opened DirtyRoi
  import opened Staging
  import opened GpuBuf
  import opened ControlWire
  import opened ViewState

  // ----- The facts -----

  /** On one connection frames sent are ACKs processed plus the frame in flight,
      and neither they nor the credit held exceed the NEXT_FRAMEs received. */
  predicate Accounted(v: ViewState) {
    && |v.hist.wire| == v.hist.acks + (if v.pace.pending then 1 else 0)
    && |v.hist.wire| + (if v.pace.credit then 1 else 0) <= v.hist.requests
  }

  predicate Accounts(v: ViewState) {
    if v.link.connected then Accounted(v) else !v.pace.pending && !v.pace.credit
  }

  /** The buffer has the pixels recorded with the pointer, unless the game wrote
      there since. */
  predicate Contains(bufs: Buffers, held: Held) {
    bufs.At(held.b).author == ByView ==> bufs.At(held.b).image == held.image.px
  }

  /** The same, and on a connection where the game spared the buffers for good. */
  predicate Recorded(v: ViewState, held: Held) {
    Contains(v.gpu.bufs, held) && (v.hist.spared ==> v.gpu.bufs.At(held.b).image == held.image.px)
  }

  predicate SomeRecorded(v: ViewState, held: Option<Held>) {
    held.Some? ==> Recorded(v, held.value)
  }

  /** The buffer in flight still has the frame sent from it, and the buffers last
      acknowledged and deferred what they had then: the view has not written them
      since. A failed blit into a deferred buffer leaves it uninitialised. */
  predicate Frozen(v: ViewState) {
    && SomeRecorded(v, v.gpu.inflight)
    && SomeRecorded(v, v.gpu.lastAcked)
    && (v.gpu.inflight.Some? ==> v.gpu.inflight.value.image == v.hist.sentImg)
    && (v.deferred.Buffer? && v.gpu.bufs.At(v.deferred.held.b).initialized ==> Recorded(v, v.deferred.held))
  }

  /** The canvas snapshot follows the shared-memory frames, and while the
      baseline is valid and nothing is in flight it is the last frame accepted. */
  predicate Tracks(v: ViewState) {
    && (v.canvas.lastSentShm && v.canvas.shadow.Some? ==> v.canvas.shadow.value == v.hist.sentImg)
    && (v.canvas.lastSentShm && v.canvas.shadow.None? ==> v.gpu.lastAcked.None? && !v.pace.pending)
    && (v.canvas.baselineValid && !v.pace.pending ==>
          v.canvas.lastSentShm && v.canvas.shadow == Some(v.hist.acceptedImg))
  }

  predicate Holds(bufs: Buffers, held: Held) {
    bufs.At(held.b).initialized && bufs.At(held.b).image == held.image.px
  }

  predicate SomeHolds(bufs: Buffers, held: Option<Held>) {
    held.Some? && Holds(bufs, held.value)
  }

  /** Where the newest paint is: the deferred snapshot, else the frame in
      flight, else the last frame accepted; and what it can be sent from again. */
  predicate Kept(v: ViewState, newest: Image) {
    match v.deferred
    case Pixels(image) => image == newest
    case Buffer(held) => held.image == newest && Holds(v.gpu.bufs, held)
    case Nothing =>
      && v.hist.sentImg == newest && (!v.pace.pending ==> v.hist.acceptedImg == newest)
      && if v.canvas.lastSentShm then v.canvas.shadow.Some?
         else if v.pace.pending then SomeHolds(v.gpu.bufs, v.gpu.inflight)
         else SomeHolds(v.gpu.bufs, v.gpu.lastAcked) && v.gpu.lastAcked.value.image == newest
  }

  /** Before the first paint on a connection or at a size there is nothing to show. */
  predicate Blank(v: ViewState) {
    !v.pace.pending && v.deferred == Nothing && v.canvas.shadow.None? && v.gpu.lastAcked.None?
        && !v.canvas.baselineValid
  }

  /** While the last capture sent has a number and went out staged, the main
      staging buffer has what was sent, unless the game wrote there since. */
  predicate StagedCapture(v: ViewState) {
    v.pace.counter.Some? && v.hist.based ==>
      && v.gpu.bufs.main.initialized && Contains(v.gpu.bufs, Held(Main, v.hist.captureImg))
      && v.gpu.bufs.main.w == v.hist.captureImg.w && v.gpu.bufs.main.h == v.hist.captureImg.h
  }

  predicate Fresh(v: ViewState) {
    if v.hist.latest.Some? then v.hist.kept ==> Kept(v, v.hist.latest.value) else Blank(v)
  }

  /** The frame is the one in flight: it carries the snapshot, or names the
      buffer object the in-flight pointer names. */
  predicate Flies(v: ViewState, f: Frame) {
    if v.canvas.lastSentShm then
      && v.canvas.shadow.Some? && (f.ShmFull? || f.ShmRect?)
      && f.w == v.canvas.shadow.value.w && f.h == v.canvas.shadow.value.h
      && (f.ShmFull? ==> f.px == v.canvas.shadow.value.px)
    else if v.gpu.inflight.Some? then
      var held := v.gpu.inflight.value;
      f == StagedFrame(v.gpu.bufs, held.b, held.image.w, held.image.h)
    else f.DmaForwarded? && f.w < INT_LIMIT && f.h < INT_LIMIT
  }

  predicate Flying(v: ViewState) {
    v.pace.pending ==> v.hist.wire != [] && Flies(v, v.hist.wire[|v.hist.wire| - 1])
  }

  predicate Base(v: ViewState) {
    Accounts(v) && Frozen(v) && Tracks(v) && Flying(v) && StagedCapture(v)
  }

  predicate Facts(v: ViewState) {
    Fits(v) && Base(v) && Fresh(v)
  }

  // ----- Sending -----

  /** A rectangle chosen from an honest list, or verified, patches the snapshot
      up to the new pixels. */
  lemma NewShadowIsNext(v: ViewState, next: Image, dirty: Option<seq<DirtyRect>>, verified: Option<Delta>)
    requires Fits(v) && next.Valid()
    requires verified.Some? ==> verified.value.Fields32()
    requires var roi := SentRoi(v, next.w, next.h, dirty, verified);
             roi.Some? && v.canvas.shadow.Some?
             && v.canvas.shadow.value.w == next.w && v.canvas.shadow.value.h == next.h ==>
               AgreeOutside(v.canvas.shadow.value.px, next.px, next.w, roi.value.Area())
    ensures NewShadow(v.canvas.shadow, next, SentRoi(v, next.w, next.h, dirty, verified)) == next
  {
    var roi := SentRoi(v, next.w, next.h, dirty, verified);
    if roi.Some? && v.canvas.shadow.Some? && v.canvas.shadow.value.w == next.w && v.canvas.shadow.value.h == next.h {
      PatchCompletes(v.canvas.shadow.value.px, next.w, roi.value.Area(), next.px);
    }
  }

  /** What a send through shared memory leaves alone. */
  predicate SameStaging(v: ViewState, u: ViewState) {
    && u.gpu.bufs == v.gpu.bufs && u.pace.counter == v.pace.counter && u.OnDma() == v.OnDma()
    && u.deferred == v.deferred && u.hist.latest == v.hist.latest && u.hist.kept == v.hist.kept
    && u.gpu.lastAcked == v.gpu.lastAcked
  }

  lemma SentKeeps(v: ViewState, next: Image, roi: Option<Delta>)
    requires Fits(v) && v.link.connected && v.gpu.inflight == None && next.Valid() && !v.pace.pending && v.pace.credit
    requires roi.Some? ==> roi.value.Fields32() && Inside(roi.value.Area(), next.w, next.h)
    requires Base(v)
    ensures var r := Sent(v, next, roi);
            Base(r) && SameStaging(v, r) && r.pace.pending && r.link.connected && !r.pace.credit && r.canvas.lastSentShm
            && r.hist.sentImg == NewShadow(v.canvas.shadow, next, roi)
  {
  }

  lemma SentGpuKeeps(v: ViewState, b: BufName, w: nat, h: nat)
    requires Fits(v) && v.link.connected && HeldFits(v.gpu.bufs, Held(b, Image(w, h, v.gpu.bufs.At(b).image)))
    requires !v.pace.pending && v.pace.credit && Base(v)
    ensures var r := SentGpu(v, b, w, h);
            Base(r.(pace := r.pace.(credit := false)))
  {
  }

  lemma SendShmKeeps(v: ViewState, next: Image, dirty: Option<seq<DirtyRect>>, verified: Option<Delta>, sendOk: bool)
    returns (u: ViewState)
    requires Fits(v) && Base(v) && v.link.connected && !v.pace.pending && v.pace.credit && next.Valid()
    requires verified.Some? ==> verified.value.Fields32()
    ensures u == SendShmPixels(v, next, dirty, verified, sendOk)
    ensures !sendOk ==> u == v
    ensures sendOk ==>
              && Base(u) && u.pace.pending && u.link.connected && !u.pace.credit && u.canvas.lastSentShm
              && SameStaging(v, u)
              && u.hist.sentImg == NewShadow(v.canvas.shadow, next, SentRoi(v, next.w, next.h, dirty, verified))
  {
    u := SendShmPixels(v, next, dirty, verified, sendOk);
    if sendOk {
      var roi := SentRoi(v, next.w, next.h, dirty, verified);
      if roi.Some? {
        SentRoiFits(v, next.w, next.h, dirty, verified);
        SentKeeps(v, next, roi);
      } else {
        SentKeeps(v, next, None);
      }
    }
  }

  // ----- The deferred snapshot -----

  lemma ReadBackKeeps(v: ViewState, readOk: bool)
    requires Facts(v)
    ensures Facts(ReadBackDeferred(v, readOk))
  {
  }

  /** The deferred snapshot differs from the snapshot of the canvas only inside
      the verified rectangle. */
  lemma VerdictCovers(v: ViewState)
    requires Fits(v) && v.deferred.Pixels?
    ensures var d, i := DeferredVerdict(v), v.deferred.image;
            && (d.0 == Unchanged ==> v.canvas.baselineValid && v.canvas.shadow == Some(i))
            && (d.0 == Partial ==>
                  && v.canvas.shadow.Some? && v.canvas.shadow.value.w == i.w && v.canvas.shadow.value.h == i.h
                  && AgreeOutside(v.canvas.shadow.value.px, i.px, i.w, d.1.Area()))
  {
    var d, i := DeferredVerdict(v), v.deferred.image;
    if d.0 != Full {
      var s := v.canvas.shadow.value;
      if d.0 == Unchanged {
        NoDifferenceMeansEqual(i.px, s.px, i.w, i.h);
        assert s == i;
      } else {
        TightBoxCoversBytes(i.px, s.px, i.w, i.h, d.1.Area());
      }
    }
  }

  lemma SendDeferredPixelsKeeps(v: ViewState, sendOk: bool)
    requires Facts(v) && v.deferred.Pixels? && v.link.connected && !v.pace.pending && v.pace.credit
    ensures Facts(SendDeferredPixels(v, sendOk))
  {
    VerdictCovers(v);
    var d, i := DeferredVerdict(v), v.deferred.image;
    if d.0 == Unchanged {
      SkipDeferredKeeps(v);
    } else {
      var verified := if d.0 == Partial then Some(d.1) else None;
      NewShadowIsNext(v, i, None, verified);
      var u := SendShmKeeps(v, i, None, verified, sendOk);
      if sendOk {
        AfterDeferredKeeps(v, u);
      }
    }
  }

  lemma SkipDeferredKeeps(v: ViewState)
    requires Facts(v) && v.deferred.Pixels? && v.link.connected && !v.pace.pending
    requires v.canvas.baselineValid && v.canvas.shadow == Some(v.deferred.image)
    ensures Facts(SkipDeferred(v))
  {
  }

  lemma AfterDeferredKeeps(v: ViewState, u: ViewState)
    requires Facts(v) && v.deferred.Pixels?
    requires Fits(u) && Base(u) && u.pace.pending && u.canvas.lastSentShm && !u.pace.credit && SameStaging(v, u)
    requires u.hist.sentImg == v.deferred.image
    ensures Facts(AfterDeferred(u))
  {
  }

  lemma SendDeferredGpuKeeps(v: ViewState, sendOk: bool)
    requires Facts(v) && v.deferred.Buffer? && v.link.connected && !v.pace.pending && v.pace.credit
    ensures Facts(SendDeferredGpu(v, sendOk))
  {
    var held := v.deferred.held;
    if v.OnDma() && v.gpu.bufs.At(held.b).present && sendOk {
      SentGpuKeeps(v, held.b, held.image.w, held.image.h);
    }
  }

  /** Sending what was kept, or finding it unchanged, keeps every fact. */
  lemma MaybeSendDeferredKeeps(v: ViewState, env: Env)
    requires Facts(v)
    ensures Facts(MaybeSendDeferred(v, env))
  {
    if v.pace.credit && !v.pace.pending && v.link.connected && v.link.visible && v.deferred != Nothing {
      ReadBackKeeps(v, env.readOk);
      var u := ReadBackDeferred(v, env.readOk);
      match u.deferred
      case Nothing =>
      case Pixels(_) => SendDeferredPixelsKeeps(u, env.sendOk);
      case Buffer(_) => SendDeferredGpuKeeps(u, env.sendOk);
    }
  }

  // ----- OnPaint -----

  /** A direct send counted as whole makes the canvas the new paint: a rectangle
      chosen from an honest list does because the canvas was the paint before. */
  lemma DirectRoiCovers(v: ViewState, l: ViewState, next: Image, dirty: seq<DirtyRect>)
    requires Facts(v) && !v.pace.pending && v.deferred == Nothing && next.Valid()
    requires SentWhole(v, next, dirty) && l == v.(hist := l.hist)
    ensures NewShadow(l.canvas.shadow, next, SentRoi(l, next.w, next.h, Some(dirty), None)) == next
  {
    var roi := SentRoi(l, next.w, next.h, Some(dirty), None);
    if roi.Some? && l.canvas.shadow.Some? && l.canvas.shadow.value.w == next.w && l.canvas.shadow.value.h == next.h {
      assert v.hist.latest == v.canvas.shadow;
      DirtySurvivesFlip(v.canvas.shadow.value.px, next.px, next.w, next.h, dirty);
    }
    NewShadowIsNext(l, next, Some(dirty), None);
  }

  /** Noting a newest paint that changes nothing keeps every fact. */
  lemma WithLatestKeeps(v: ViewState, next: Image)
    requires Facts(v) && v.link.connected
    ensures var l := WithLatest(v, next); Fits(l) && Base(l) && Fresh(l)
  {
  }

  lemma StoredKeeps(v: ViewState, image: Image)
    requires Fits(v) && Base(v.(deferred := Nothing)) && v.link.connected && image.Valid() && v.hist.latest.Some?
    ensures Facts(MarkDropped(CacheDeferredPixels(v, image)))
  {
  }

  lemma AfterPaintKeeps(u: ViewState, whole: bool)
    requires Fits(u) && Base(u) && u.pace.pending && u.canvas.lastSentShm && !u.pace.credit && u.deferred == Nothing
    requires u.hist.latest.Some? && (whole ==> u.hist.latest == Some(u.hist.sentImg))
    ensures Facts(AfterPaint(u, whole))
  {
  }

  lemma DirectPixelsKeeps(v: ViewState, next: Image, dirty: seq<DirtyRect>, sendOk: bool)
    requires Facts(v) && v.link.connected && !Busy(v) && next.Valid()
    ensures Facts(DirectPixels(WithLatest(v, next), next, dirty, SentWhole(v, next, dirty), sendOk))
  {
    var l := WithLatest(v, next);
    WithLatestKeeps(v, next);
    if SentWhole(v, next, dirty) {
      DirectRoiCovers(v, l, next, dirty);
    }
    var u := SendShmKeeps(l, next, Some(dirty), None, sendOk);
    if sendOk {
      AfterPaintKeeps(u, SentWhole(v, next, dirty));
    }
  }

  lemma PaintPixelsKeeps(v: ViewState, next: Image, dirty: seq<DirtyRect>, env: Env)
    requires Facts(v) && v.link.connected && next.Valid()
    ensures Facts(PaintPixels(v, next, dirty, env))
  {
    if Busy(v) {
      var l := WithLatest(v, next);
      WithLatestKeeps(v, next);
      StoredKeeps(l, next);
      MaybeSendDeferredKeeps(MarkDropped(CacheDeferredPixels(l, next)), env);
    } else {
      DirectPixelsKeeps(v, next, dirty, env.sendOk);
    }
  }

  lemma LostKeeps(v: ViewState)
    requires Facts(v)
    ensures Facts(Lost(v))
  {
  }

  lemma OnPaintKeeps(v: ViewState, isView: bool, source: Option<seq<byte>>, w: int, h: int, dirty: seq<DirtyRect>,
                     env: Env)
    requires Facts(v) && w < INT_LIMIT && h < INT_LIMIT
    requires source.Some? && w > 0 && h > 0 ==> |source.value| == w * h * 4
    ensures Facts(OnPaint(v, isView, source, w, h, dirty, env))
  {
    if isView && source.Some? && v.link.connected && v.link.visible {
      if w <= 0 || h <= 0 || w * h * 4 > PIXEL_BYTES_LIMIT {
        LostKeeps(v);
      } else {
        GlImageInvolution(source.value, w, h, BGRA);
        PaintPixelsKeeps(v, Image(w, h, GlImage(source.value, w * 4, w, h, BGRA)), dirty, env);
      }
    }
  }

  // ----- OnAcceleratedPaint -----

  lemma MappedIsPicture(info: Accelerated, mapOk: bool)
    requires info.Valid() && Mappable(info, mapOk)
    ensures Mapped(info) == info.Picture()
  {
    StagedIsNormalised(info.plane, info.stride, info.w, info.h, info.channels);
  }

  lemma CapturedKeeps(v: ViewState, info: Accelerated)
    requires Facts(v) && v.link.connected && info.Valid()
    ensures Facts(Captured(v, info))
    ensures info.Sized() ==> Captured(v, info).hist.latest == Some(info.Picture())
  {
    if info.Sized() {
      WithLatestKeeps(v, info.Picture());
    } else {
      LostKeeps(v);
    }
  }

  /** The staging blit writes one buffer, and neither the one in flight nor the
      one remembered as acknowledged. The number of the capture goes. */
  lemma StageKeeps(v: ViewState, info: Accelerated, dirty: seq<DirtyRect>, full: bool, env: BlitEnv)
    requires Fits(v) && Base(v) && info.Valid() && info.Sized()
    ensures var r := StageInto(v, info, dirty, full, env);
            && Accounts(r.0) && Tracks(r.0) && Flying(r.0)
            && Frozen(r.0.(deferred := Nothing)) && (!r.1 ==> Frozen(r.0))
  {
  }

  /** A successful full blit leaves exactly the new paint in the buffer. */
  lemma FullStageHolds(v: ViewState, info: Accelerated, env: BlitEnv)
    requires Fits(v) && info.Valid() && info.Sized() && StageInto(v, info, [], true, env).1
    ensures Holds(StageInto(v, info, [], true, env).0.gpu.bufs, Held(Target(v), info.Picture()))
  {
    ExportHoldsFrame(v.gpu.bufs.At(Target(v)), info.planes, info.texture, info.w, info.h, [], true, env);
  }

  /** What a staging blit leaves of the facts. */
  predicate Restable(r: ViewState) {
    Accounts(r) && Tracks(r) && Flying(r) && Frozen(r.(deferred := Nothing)) && r.link.connected && r.hist.latest.Some?
  }

  lemma DeferStagedKeeps(r: ViewState, b: BufName, info: Accelerated)
    requires info.Valid() && info.Sized() && Restable(r)
    requires Fits(r.(deferred := Nothing)) && Holds(r.gpu.bufs, Held(b, info.Picture()))
    requires SizeIs(r.gpu.bufs.At(b), info.w, info.h)
    ensures Facts(MarkDropped(DeferStaged(r, b, info)))
  {
  }

  lemma DeferMappedKeeps(r: ViewState, image: Image)
    requires Restable(r) && Fits(r) && image.Valid()
    ensures Facts(MarkDropped(CacheDeferredPixels(r, image)))
  {
  }

  lemma LostDropKeeps(r: ViewState)
    requires Fits(r) && Accounts(r) && Tracks(r) && Flying(r) && Frozen(r) && (r.hist.latest.None? ==> Blank(r))
    ensures Facts(MarkDropped(Lost(r)))
  {
  }

  lemma CacheDeferredGpuKeeps(v: ViewState, info: Accelerated, env: Env)
    requires Facts(v) && v.link.connected && info.Valid()
    requires info.Sized() ==> v.hist.latest == Some(info.Picture())
    ensures Facts(MarkDropped(CacheDeferredGpu(v, info, env)))
  {
    if !info.Sized() {
      LostDropKeeps(v);
    } else {
      var r := StageInto(v, info, [], true, env.blit);
      StageKeeps(v, info, [], true, env.blit);
      if r.1 {
        FullStageHolds(v, info, env.blit);
        DeferStagedKeeps(r.0, Target(v), info);
      } else if Mappable(info, env.mapOk) {
        DeferMappedKeeps(r.0, Mapped(info));
      } else {
        LostDropKeeps(r.0);
      }
    }
  }

  lemma DeferCaptureKeeps(v: ViewState, info: Accelerated, env: Env)
    requires Facts(v) && v.link.connected && info.Valid()
    requires info.Sized() ==> v.hist.latest == Some(info.Picture())
    ensures Facts(DeferCapture(v, info, env))
  {
    CacheDeferredGpuKeeps(v, info, env);
    MaybeSendDeferredKeeps(MarkDropped(CacheDeferredGpu(v, info, env)), env);
  }

  /** A direct capture counted as whole leaves exactly its picture in the main
      buffer: after a full blit in any case, and after a dirty-only one because
      the buffer had the capture before. */
  lemma PartialStageHolds(v: ViewState, info: Accelerated, dirty: seq<DirtyRect>, env: Env)
    requires Fits(v) && StagedCapture(v) && v.gpu.inflight == None && info.Valid() && v.OnDma()
    requires CaptureWhole(v, info, dirty, env)
    ensures Holds(StageInto(v, info, dirty, !CanBlitDirty(v, info), env.blit).0.gpu.bufs, Held(Main, info.Picture()))
  {
    ExportHoldsFrame(v.gpu.bufs.main, info.planes, info.texture, info.w, info.h, dirty, !CanBlitDirty(v, info),
                     env.blit);
  }

  lemma AfterGpuCaptureKeeps(v: ViewState, info: Accelerated, whole: bool)
    requires Fits(v) && Restable(v) && !v.pace.pending && v.pace.credit && v.deferred == Nothing
    requires info.Valid() && info.Sized() && SizeIs(v.gpu.bufs.main, info.w, info.h) && v.gpu.bufs.main.initialized
    requires whole ==> v.hist.latest == Some(info.Picture()) && Holds(v.gpu.bufs, Held(Main, info.Picture()))
    ensures Facts(AfterCapture(SentGpu(v, Main, info.w, info.h), info.counter, whole))
  {
  }

  lemma AfterForwardKeeps(v: ViewState, info: Accelerated)
    requires Fits(v) && Restable(v) && !v.pace.pending && v.pace.credit && v.deferred == Nothing
    requires info.Valid() && info.Sized()
    ensures Facts(AfterCapture(Forwarded(v, info.w, info.h), info.counter, false))
  {
  }

  lemma MissedKeeps(v: ViewState)
    requires Fits(v) && Accounts(v) && Tracks(v) && Flying(v) && Frozen(v) && (v.hist.latest.None? ==> Blank(v))
    ensures Facts(Missed(v))
  {
  }

  lemma SendStagedKeeps(r: ViewState, staged: bool, info: Accelerated, whole: bool, sendOk: bool)
    requires Fits(r) && Restable(r) && !r.pace.pending && r.pace.credit && r.deferred == Nothing
    requires info.Valid() && info.Sized()
    requires staged ==> SizeIs(r.gpu.bufs.main, info.w, info.h) && r.gpu.bufs.main.initialized
    requires whole ==> staged && r.hist.latest == Some(info.Picture()) && Holds(r.gpu.bufs, Held(Main, info.Picture()))
    ensures Facts(Finish(SendStaged(r, staged, Main, info, sendOk), info.counter, whole))
  {
    if sendOk && staged {
      AfterGpuCaptureKeeps(r, info, whole);
    } else if sendOk && 1 <= info.planes <= 4 {
      AfterForwardKeeps(r, info);
    } else {
      MissedKeeps(r);
    }
  }

  lemma UnsizedKeeps(l: ViewState, info: Accelerated, dirty: seq<DirtyRect>, whole: bool, env: Env)
    requires Facts(l) && l.link.connected && !Busy(l) && info.Valid() && !info.Sized()
    ensures Facts(DirectCapture(l, info, dirty, whole, env))
  {
    assert Transmit(l, info, dirty, !CanBlitDirty(l, info), env) == l;
    MissedKeeps(l);
  }

  lemma DirectGpuKeeps(v: ViewState, l: ViewState, info: Accelerated, dirty: seq<DirtyRect>, env: Env)
    requires Facts(v) && v.link.connected && !Busy(v) && info.Valid() && info.Sized() && v.OnDma()
    requires l == Captured(v, info) && Facts(l)
    ensures Facts(DirectCapture(l, info, dirty, CaptureWhole(v, info, dirty, env), env))
  {
    var full, whole := !CanBlitDirty(l, info), CaptureWhole(v, info, dirty, env);
    var r := StageInto(l, info, dirty, full, env.blit);
    StageKeeps(l, info, dirty, full, env.blit);
    if whole {
      StagedForWhole(v, l, info, dirty, env);
    }
    SendStagedKeeps(r.0, r.1, info, whole, env.sendOk);
  }

  lemma StagedForWhole(v: ViewState, l: ViewState, info: Accelerated, dirty: seq<DirtyRect>, env: Env)
    requires Fits(v) && StagedCapture(v) && v.gpu.inflight == None && info.Valid() && v.OnDma()
    requires CaptureWhole(v, info, dirty, env) && l == v.(hist := l.hist)
    ensures var r := StageInto(l, info, dirty, !CanBlitDirty(l, info), env.blit);
            r.1 && Holds(r.0.gpu.bufs, Held(Main, info.Picture()))
  {
    PartialStageHolds(v, info, dirty, env);
  }

  lemma AfterShmCaptureKeeps(u: ViewState, counter: Option<nat>, whole: bool)
    requires Fits(u) && Base(u) && u.pace.pending && u.canvas.lastSentShm && !u.pace.credit && u.deferred == Nothing
    requires u.hist.latest.Some? && (whole ==> u.hist.latest == Some(u.hist.sentImg))
    ensures Facts(AfterCapture(u, counter, whole))
  {
  }

  lemma DirectMappedKeeps(v: ViewState, l: ViewState, info: Accelerated, dirty: seq<DirtyRect>, env: Env)
    requires Facts(v) && v.link.connected && !Busy(v) && info.Valid() && !v.OnDma()
    requires l == Captured(v, info) && Facts(l)
    ensures Facts(DirectCapture(l, info, dirty, CaptureWhole(v, info, dirty, env), env))
  {
    if Mappable(info, env.mapOk) && env.sendOk {
      var whole := CaptureWhole(v, info, dirty, env);
      MappedIsPicture(info, env.mapOk);
      if whole {
        DirectRoiCovers(v, l, info.Picture(), dirty);
      }
      var u := SendShmKeeps(l, Mapped(info), Some(dirty), None, env.sendOk);
      AfterShmCaptureKeeps(u, info.counter, whole);
    } else {
      MissedKeeps(l);
    }
  }

  lemma OnAcceleratedPaintKeeps(v: ViewState, isView: bool, info: Accelerated, dirty: seq<DirtyRect>, env: Env)
    requires Facts(v) && info.Valid()
    ensures Facts(OnAcceleratedPaint(v, isView, info, dirty, env))
  {
    if isView && v.link.connected && v.link.visible {
      CapturedKeeps(v, info);
      var l := Captured(v, info);
      if Busy(v) {
        DeferCaptureKeeps(l, info, env);
      } else if v.pace.needsFull || !info.hasUpdateRect || (info.updateW > 0 && info.updateH > 0) {
        if !info.Sized() {
          UnsizedKeeps(l, info, dirty, CaptureWhole(v, info, dirty, env), env);
        } else if v.OnDma() {
          DirectGpuKeeps(v, l, info, dirty, env);
        } else {
          DirectMappedKeeps(v, l, info, dirty, env);
        }
      }
    }
  }

  // ----- Acknowledgements, requests, visibility, connection -----

  /** The accepted frame is the one on screen, wherever its pixels are kept. */
  predicate Landed(v: ViewState) {
    && v.pace.pending && v.hist.acceptedImg == v.hist.sentImg
    && (v.gpu.inflight.Some? ==> v.gpu.lastAcked == v.gpu.inflight)
  }

  lemma MarkAcceptedKeeps(v: ViewState)
    requires Facts(v) && v.pace.pending
    ensures Facts(MarkAccepted(v)) && Landed(MarkAccepted(v))
  {
  }

  lemma KeepShownKeeps(v: ViewState)
    requires Facts(v) && Landed(v)
    ensures Facts(KeepShown(v)) && Landed(KeepShown(v))
  {
  }

  lemma RebaseKeeps(v: ViewState)
    requires Facts(v) && Landed(v)
    ensures Facts(Settled(Rebase(v)))
  {
  }

  lemma CountRejectKeeps(v: ViewState, code: AckCode)
    requires Facts(v)
    ensures Facts(CountReject(v, code))
  {
  }

  lemma DropBaselineKeeps(v: ViewState)
    requires Facts(v)
    ensures Facts(DropBaseline(v))
  {
  }

  /** A snapshot of one picture. */
  predicate Shows(bufs: Buffers, s: Snapshot, image: Image) {
    match s
    case Nothing => false
    case Pixels(i) => i == image
    case Buffer(held) => held.image == image && Holds(bufs, held)
  }

  lemma DeferKeeps(v: ViewState, s: Snapshot)
    requires Facts(v) && v.link.connected && v.deferred == Nothing && SnapshotFits(v.gpu.bufs, s)
    requires v.hist.latest.Some? && (s.Buffer? ==> Recorded(v, s.held))
    requires v.hist.kept ==> Shows(v.gpu.bufs, s, v.hist.latest.value)
    ensures Facts(Defer(v, s))
  {
  }

  lemma RefusedShows(v: ViewState, readOk: bool)
    requires Fits(v) && Frozen(v) && v.gpu.inflight.Some? && Holds(v.gpu.bufs, v.gpu.inflight.value)
    ensures Shows(v.gpu.bufs, Refused(v, readOk), v.hist.sentImg)
  {
  }

  lemma SettledKeeps(v: ViewState)
    requires Facts(v) && v.pace.pending && !v.canvas.baselineValid
    requires v.hist.kept ==> v.deferred != Nothing
    ensures Facts(Settled(v))
  {
  }

  lemma RefusedKeeps(v: ViewState, s: Snapshot)
    requires Facts(v) && v.pace.pending && !v.canvas.baselineValid
    requires v.deferred == Nothing && SnapshotFits(v.gpu.bufs, s)
    requires (s.Buffer? ==> Recorded(v, s.held)) && (v.hist.kept ==> Shows(v.gpu.bufs, s, v.hist.sentImg))
    ensures Facts(Settled(Defer(v, s)))
  {
    DeferKeeps(v, s);
    SettledKeeps(Defer(v, s));
  }

  /** A refused frame that held the newest paint is deferred again. */
  lemma KeepRefusedKeeps(v: ViewState, readOk: bool)
    requires Facts(v) && v.pace.pending && !v.canvas.baselineValid
    ensures Facts(Settled(KeepRefused(v, readOk)))
  {
    if v.deferred != Nothing {
      SettledKeeps(v);
    } else if v.canvas.lastSentShm {
      RefusedKeeps(v, Pixels(v.canvas.shadow.value));
    } else if v.gpu.inflight.Some? {
      if v.hist.kept {
        RefusedShows(v, readOk);
      }
      RefusedKeeps(v, Refused(v, readOk));
    } else {
      SettledKeeps(v);
    }
  }

  lemma ResizedKeeps(v: ViewState, ack: AckMsg)
    requires Facts(v) && !v.pace.pending
    ensures Facts(Resized(v, ack))
  {
  }

  lemma ProcessAckKeeps(v: ViewState, ack: AckMsg, readOk: bool)
    requires Facts(v) && v.pace.pending
    ensures Facts(ProcessAck(v, ack, readOk)) && !ProcessAck(v, ack, readOk).pace.pending
  {
    if ack.code == Accepted {
      MarkAcceptedKeeps(v);
      KeepShownKeeps(MarkAccepted(v));
      RebaseKeeps(KeepShown(MarkAccepted(v)));
      FinishAckKeeps(Accept(v), ack);
    } else {
      CountRejectKeeps(v, ack.code);
      DropBaselineKeeps(CountReject(v, ack.code));
      KeepRefusedKeeps(DropBaseline(CountReject(v, ack.code)), readOk);
      FinishAckKeeps(Refuse(v, ack.code, readOk), ack);
    }
  }

  lemma FinishAckKeeps(v: ViewState, ack: AckMsg)
    requires Fits(v) && Facts(Settled(v))
    ensures Facts(FinishAck(v, ack)) && !FinishAck(v, ack).pace.pending
  {
    if Resizes(v, ack) {
      ResizedKeeps(Settled(v), ack);
    }
  }

  lemma TakeRequestsKeeps(v: ViewState, reqs: seq<Request>, up: bool)
    requires Facts(v) && v.link.connected
    ensures Facts(TakeRequests(v, reqs, up))
  {
  }

  lemma PollSocketKeeps(v: ViewState, ack: Option<AckMsg>, reqs: seq<Request>, up: bool, env: Env)
    requires Facts(v)
    ensures Facts(PollSocket(v, ack, reqs, up, env))
  {
    if v.link.connected {
      TakeAckKeeps(v, ack, env.readOk);
      var a := TakeAck(v, ack, env.readOk);
      TakeRequestsKeeps(a, reqs, up);
      MaybeSendDeferredKeeps(TakeRequests(a, reqs, up), env);
    }
  }

  lemma TakeAckKeeps(v: ViewState, ack: Option<AckMsg>, readOk: bool)
    requires Facts(v)
    ensures Facts(TakeAck(v, ack, readOk))
  {
    if v.pace.pending && ack.Some? {
      ProcessAckKeeps(v, ack.value, readOk);
    }
  }

  lemma ShownKeeps(v: ViewState, visible: bool)
    requires Facts(v)
    ensures Facts(Shown(v, visible))
  {
  }

  lemma KeepHiddenKeeps(v: ViewState)
    requires Facts(v)
    ensures Facts(KeepHidden(v))
  {
    if v.link.connected && v.deferred == Nothing {
      if v.pace.pending && v.gpu.inflight.Some? {
        DeferKeeps(v, Buffer(v.gpu.inflight.value));
      } else if v.canvas.lastSentShm && v.canvas.shadow.Some? {
        DeferKeeps(v, Pixels(v.canvas.shadow.value));
      } else if v.gpu.lastAcked.Some? {
        DeferKeeps(v, Buffer(v.gpu.lastAcked.value));
      }
    }
  }

  lemma SetOverlayVisibleKeeps(v: ViewState, visible: bool)
    requires Facts(v)
    ensures Facts(SetOverlayVisible(v, visible))
  {
    if v.link.visible != visible {
      ShownKeeps(v, visible);
      var u := Shown(v, visible);
      KeepHiddenKeeps(u);
      DropBaselineKeeps(if visible then u else KeepHidden(u));
    }
  }

  lemma ConnectTaskKeeps(v: ViewState, up: bool, inited: bool)
    requires Facts(v)
    ensures Facts(ConnectTask(v, up, inited))
  {
    if up != v.link.connected {
      ConnectKeeps(v);
    } else if !up && inited {
      ConnectKeeps(v);
    }
  }

  lemma ConnectKeeps(v: ViewState)
    requires Facts(v)
    ensures if v.link.connected then Facts(Disconnect(v)) else Facts(Connect(v))
  {
  }

  lemma OnLoadEndKeeps(v: ViewState, isMain: bool, isBlank: bool)
    requires Facts(v)
    ensures Facts(OnLoadEnd(v, isMain, isBlank))
  {
  }

  lemma StartFacts(useDma: bool, roiEnabled: bool, w: int, h: int)
    ensures Facts(Start(useDma, roiEnabled, w, h))
  {
  }

  // ----- Uploads of the game -----

  /** An upload of the game into a staging buffer keeps the facts, told with its
      author. */
  lemma ScribbledKeeps(v: ViewState, b: BufName, image: seq<byte>, author: Author)
    requires Facts(v) && |image| == |v.gpu.bufs.At(b).image| && author != ByView
    ensures Facts(Scribbled(v, b, image, author))
  {
  }

  /** And the newest paint survives it exactly if this buffer is not the one
      place where it is, or the upload changes nothing. */
  lemma ScribbleKeepsNewestIff(v: ViewState, b: BufName, image: seq<byte>, author: Author)
    requires Facts(v) && v.hist.kept && v.hist.latest.Some? && |image| == |v.gpu.bufs.At(b).image|
    ensures Kept(Scribbled(v, b, image, author), v.hist.latest.value)
            <==> !Relies(v, b) || image == v.gpu.bufs.At(b).image
  {
  }

  /** Every buffer a pointer names has the pixels it was recorded with. */
  predicate Intact(v: ViewState) {
    && (v.gpu.inflight.Some? ==> v.gpu.bufs.At(v.gpu.inflight.value.b).image == v.gpu.inflight.value.image.px)
    && (v.gpu.lastAcked.Some? ==> v.gpu.bufs.At(v.gpu.lastAcked.value.b).image == v.gpu.lastAcked.value.image.px)
    && (v.deferred.Buffer? && v.gpu.bufs.At(v.deferred.held.b).initialized ==>
          v.gpu.bufs.At(v.deferred.held.b).image == v.deferred.held.image.px)
  }

  lemma SparedIsIntact(v: ViewState)
    requires Facts(v) && v.hist.spared
    ensures Intact(v)
  {
  }

  /** An upload breaks this exactly if a pointer names the buffer and the upload
      changes it. */
  lemma ScribbleBreaksIff(v: ViewState, b: BufName, image: seq<byte>, author: Author)
    requires Facts(v) && Intact(v) && |image| == |v.gpu.bufs.At(b).image|
    ensures Intact(Scribbled(v, b, image, author)) <==> !Names(v, b) || image == v.gpu.bufs.At(b).image
  {
  }
}
