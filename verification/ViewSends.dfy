/** What a callback does to the wire: nothing, or one frame that the consumer
    can apply to the canvas it last acknowledged. */
module ViewSends {
  import opened Bytes
  import opened Raster
  import opened ShmDelta
  import opened ShmDiff
  import opened ShmFormat
  import opened DirtyRoi
  import opened GpuBuf
  import opened ControlWire
  import opened ViewState
  import opened ViewFacts

  /** A staging buffer changes only by a blit of the view. */
  predicate Blitted(v: ViewState, r: ViewState) {
    forall b :: r.gpu.bufs.At(b) == v.gpu.bufs.At(b) || r.gpu.bufs.At(b).author == ByView
  }

  /** Neither sends nor touches what the consumer's picture is compared with. */
  predicate Quiet(v: ViewState, r: ViewState) {
    && Blitted(v, r)
    && r.link.connected == v.link.connected && r.hist.wire == v.hist.wire
    && r.pace.pending == v.pace.pending && r.gpu.inflight == v.gpu.inflight
    && r.canvas.lastSentShm == v.canvas.lastSentShm && r.canvas.shadow == v.canvas.shadow
    && (r.canvas.baselineValid ==> v.canvas.baselineValid)
    && r.hist.acceptedImg == v.hist.acceptedImg
    && r.mode.renderW == v.mode.renderW && r.mode.renderH == v.mode.renderH
  }

  /** Applying the rectangle packet turns one snapshot into the other, provided
      they have the size the frame announces. */
  predicate RectMoves(before: Option<Image>, w: nat, h: nat, packet: seq<byte>, after: Option<Image>) {
    before.Some? && before.value.w == w && before.value.h == h ==>
      && w < INT_LIMIT && h < INT_LIMIT && after.Some?
      && (CanvasFits(w, h); ApplyPacket(before.value.px, w, h, packet) == Some(after.value.px))
  }

  predicate Launches(v: ViewState, r: ViewState, f: Frame) {
    && Blitted(v, r)
    && v.link.connected && r.link.connected && r.hist.wire == v.hist.wire + [f]
    && !v.pace.pending && r.pace.pending
    && r.canvas.baselineValid == v.canvas.baselineValid
    && r.hist.acceptedImg == v.hist.acceptedImg
    && r.mode.renderW == v.mode.renderW && r.mode.renderH == v.mode.renderH
    && (f.ShmRect? ==> v.canvas.baselineValid && RectMoves(v.canvas.shadow, f.w, f.h, f.packet, r.canvas.shadow))
  }

  predicate Sends(v: ViewState, r: ViewState) {
    Quiet(v, r) || (r.hist.wire != [] && Launches(v, r, r.hist.wire[|r.hist.wire| - 1]))
  }

  /** A quiet start does not change what the rest of the callback does. */
  lemma QuietThenSends(v: ViewState, u: ViewState, r: ViewState)
    requires Quiet(v, u) && Sends(u, r)
    requires u.canvas.baselineValid == v.canvas.baselineValid
    ensures Sends(v, r)
  {
  }

  lemma SendsThenQuiet(v: ViewState, u: ViewState, r: ViewState)
    requires Sends(v, u) && Quiet(u, r)
    requires r.canvas.baselineValid == u.canvas.baselineValid
    ensures Sends(v, r)
  {
  }

  // ----- Sending -----

  lemma PacketMoves(shadow: Option<Image>, next: Image, roi: Delta)
    requires next.Valid() && ShadowFits(shadow)
    requires roi.magic == DELTA_MAGIC && roi.Fields32() && Inside(roi.Area(), next.w, next.h)
    ensures RectMoves(shadow, next.w, next.h, Packet(next.px, next.w, next.h, roi),
                      Some(NewShadow(shadow, next, Some(roi))))
  {
    if shadow.Some? && shadow.value.w == next.w && shadow.value.h == next.h {
      CanvasFits(next.w, next.h);
      PacketRoundTrip(shadow.value.px, next.px, next.w, next.h, roi);
    }
  }

  lemma SentLaunches(v: ViewState, next: Image, roi: Option<Delta>)
    requires Fits(v) && v.link.connected && v.gpu.inflight == None && !v.pace.pending && next.Valid()
    requires roi.Some? ==> v.canvas.baselineValid && roi.value.magic == DELTA_MAGIC
                           && roi.value.Fields32() && Inside(roi.value.Area(), next.w, next.h)
    ensures Sends(v, Sent(v, next, roi))
  {
    if roi.Some? {
      PacketMoves(v.canvas.shadow, next, roi.value);
    }
  }

  lemma SendShmSends(v: ViewState, next: Image, dirty: Option<seq<DirtyRect>>, verified: Option<Delta>, sendOk: bool)
    requires Fits(v) && v.link.connected && v.gpu.inflight == None && !v.pace.pending && next.Valid()
    requires verified.Some? ==> verified.value.Fields32()
    ensures Sends(v, SendShmPixels(v, next, dirty, verified, sendOk))
  {
    if sendOk {
      var roi := SentRoi(v, next.w, next.h, dirty, verified);
      if roi.Some? {
        SentRoiFits(v, next.w, next.h, dirty, verified);
      }
      SentLaunches(v, next, roi);
    }
  }

  lemma SentGpuLaunches(v: ViewState, b: BufName, w: nat, h: nat)
    requires Fits(v) && v.link.connected && !v.pace.pending
    requires HeldFits(v.gpu.bufs, Held(b, Image(w, h, v.gpu.bufs.At(b).image)))
    ensures Sends(v, SentGpu(v, b, w, h))
  {
  }

  lemma SendDeferredSends(v: ViewState, env: Env)
    requires Fits(v) && v.link.connected && !v.pace.pending
    ensures Sends(v, SendDeferred(v, env))
  {
    match v.deferred
    case Nothing =>
    case Buffer(held) =>
      if v.OnDma() && v.gpu.bufs.At(held.b).present && env.sendOk {
        SentGpuLaunches(v, held.b, held.image.w, held.image.h);
        var u := SentGpu(v, held.b, held.image.w, held.image.h);
        SendsThenQuiet(v, u, AfterDeferred(u));
      }
    case Pixels(image) =>
      var d := DeferredVerdict(v);
      if d.0 != Unchanged {
        var verified := if d.0 == Partial then Some(d.1) else None;
        SendShmSends(v, image, None, verified, env.sendOk);
        var u := SendShmPixels(v, image, None, verified, env.sendOk);
        SendsThenQuiet(v, u, AfterDeferred(u));
      }
  }

  lemma MaybeSendDeferredSends(v: ViewState, env: Env)
    requires Fits(v)
    ensures Sends(v, MaybeSendDeferred(v, env))
  {
    if v.pace.credit && !v.pace.pending && v.link.connected && v.link.visible && v.deferred != Nothing {
      var u := ReadBackDeferred(v, env.readOk);
      SendDeferredSends(u, env);
      QuietThenSends(v, u, SendDeferred(u, env));
    }
  }

  // ----- Callbacks -----

  lemma OnPaintSends(v: ViewState, isView: bool, source: Option<seq<byte>>, w: int, h: int, dirty: seq<DirtyRect>,
                     env: Env)
    requires Fits(v) && w < INT_LIMIT && h < INT_LIMIT
    requires source.Some? && w > 0 && h > 0 ==> |source.value| == w * h * 4
    ensures Sends(v, OnPaint(v, isView, source, w, h, dirty, env))
  {
    if isView && source.Some? && v.link.connected && v.link.visible {
      if w > 0 && h > 0 && w * h * 4 <= PIXEL_BYTES_LIMIT {
        GlImageInvolution(source.value, w, h, BGRA);
        PaintPixelsSends(v, Image(w, h, GlImage(source.value, w * 4, w, h, BGRA)), dirty, env);
      }
    }
  }

  lemma PaintPixelsSends(v: ViewState, next: Image, dirty: seq<DirtyRect>, env: Env)
    requires Fits(v) && v.link.connected && next.Valid()
    ensures Sends(v, PaintPixels(v, next, dirty, env))
  {
    var l := WithLatest(v, next);
    if Busy(v) {
      var u := MarkDropped(CacheDeferredPixels(l, next));
      MaybeSendDeferredSends(u, env);
      QuietThenSends(v, u, MaybeSendDeferred(u, env));
    } else {
      SendShmSends(l, next, Some(dirty), None, env.sendOk);
      var u := SendShmPixels(l, next, Some(dirty), None, env.sendOk);
      QuietThenSends(v, l, u);
      SendsThenQuiet(v, u, if u.pace.pending then AfterPaint(u, SentWhole(v, next, dirty)) else u);
    }
  }

  lemma StageQuiet(v: ViewState, info: Accelerated, dirty: seq<DirtyRect>, full: bool, env: BlitEnv)
    requires Fits(v) && info.Valid() && info.Sized()
    ensures var r := StageInto(v, info, dirty, full, env).0; Quiet(v, r) && r.canvas == v.canvas
  {
  }

  lemma CacheDeferredGpuQuiet(v: ViewState, info: Accelerated, env: Env)
    requires Fits(v) && info.Valid()
    ensures Quiet(v, CacheDeferredGpu(v, info, env))
    ensures CacheDeferredGpu(v, info, env).canvas == v.canvas
  {
    if info.Sized() {
      StageQuiet(v, info, [], true, env.blit);
    }
  }

  lemma OnAcceleratedPaintSends(v: ViewState, isView: bool, info: Accelerated, dirty: seq<DirtyRect>, env: Env)
    requires Fits(v) && info.Valid()
    ensures Sends(v, OnAcceleratedPaint(v, isView, info, dirty, env))
  {
    if isView && v.link.connected && v.link.visible {
      var l := Captured(v, info);
      CapturedQuiet(v, info);
      if Busy(v) {
        CacheDeferredGpuQuiet(l, info, env);
        var u := MarkDropped(CacheDeferredGpu(l, info, env));
        MaybeSendDeferredSends(u, env);
        QuietThenSends(l, u, MaybeSendDeferred(u, env));
        QuietThenSends(v, l, MaybeSendDeferred(u, env));
      } else if v.pace.needsFull || !info.hasUpdateRect || (info.updateW > 0 && info.updateH > 0) {
        var whole := CaptureWhole(v, info, dirty, env);
        DirectCaptureSends(l, info, dirty, whole, env);
        QuietThenSends(v, l, DirectCapture(l, info, dirty, whole, env));
      }
    }
  }

  lemma CapturedQuiet(v: ViewState, info: Accelerated)
    requires Fits(v) && info.Valid()
    ensures Quiet(v, Captured(v, info)) && Captured(v, info).canvas == v.canvas
  {
  }

  lemma DirectCaptureSends(v: ViewState, info: Accelerated, dirty: seq<DirtyRect>, whole: bool, env: Env)
    requires Fits(v) && v.link.connected && !v.pace.pending && v.deferred == Nothing && info.Valid()
    ensures Sends(v, DirectCapture(v, info, dirty, whole, env))
  {
    var u := Transmit(v, info, dirty, !CanBlitDirty(v, info), env);
    TransmitSends(v, info, dirty, !CanBlitDirty(v, info), env);
    SendsThenQuiet(v, u, Finish(u, info.counter, whole));
  }

  lemma TransmitSends(v: ViewState, info: Accelerated, dirty: seq<DirtyRect>, full: bool, env: Env)
    requires Fits(v) && v.link.connected && !v.pace.pending && v.deferred == Nothing && info.Valid()
    ensures Sends(v, Transmit(v, info, dirty, full, env))
  {
    if v.OnDma() {
      SendFrameDmaBufSends(v, info, dirty, full, env);
    } else if Mappable(info, env.mapOk) {
      SendShmSends(v, Mapped(info), Some(dirty), None, env.sendOk);
    }
  }

  lemma SendFrameDmaBufSends(v: ViewState, info: Accelerated, dirty: seq<DirtyRect>, full: bool, env: Env)
    requires Fits(v) && v.link.connected && !v.pace.pending && v.deferred == Nothing && info.Valid()
    ensures Sends(v, SendFrameDmaBuf(v, info, dirty, full, env))
  {
    if info.Sized() {
      StageQuiet(v, info, dirty, full, env.blit);
      var r := StageInto(v, info, dirty, full, env.blit);
      SendStagedSends(r.0, r.1, Target(v), info, env.sendOk);
      QuietThenSends(v, r.0, SendStaged(r.0, r.1, Target(v), info, env.sendOk));
    }
  }

  lemma SendStagedSends(v: ViewState, staged: bool, b: BufName, info: Accelerated, sendOk: bool)
    requires Fits(v) && v.link.connected && !v.pace.pending && info.Valid() && info.Sized()
    requires staged ==> SizeIs(v.gpu.bufs.At(b), info.w, info.h)
    ensures Sends(v, SendStaged(v, staged, b, info, sendOk))
  {
    if sendOk && staged {
      SentGpuLaunches(v, b, info.w, info.h);
    }
  }

  lemma SetOverlayVisibleQuiet(v: ViewState, visible: bool)
    requires Fits(v)
    ensures Quiet(v, SetOverlayVisible(v, visible))
  {
  }

  // ----- Coming to rest -----

  /** Nothing kept and nothing in flight: the newest paint has been accepted. */
  predicate AtRest(v: ViewState) {
    v.link.connected && v.hist.kept && v.hist.latest.Some? && !v.pace.pending && v.deferred == Nothing
  }

  predicate SameShown(v: ViewState, r: ViewState) {
    && r.canvas.lastSentShm == v.canvas.lastSentShm && r.canvas.shadow == v.canvas.shadow
    && r.gpu.lastAcked == v.gpu.lastAcked
    && (r.gpu.lastAcked.Some? ==> r.gpu.bufs.At(r.gpu.lastAcked.value.b) == v.gpu.bufs.At(r.gpu.lastAcked.value.b))
  }

  /** A callback that ends at rest started there, or found its snapshot equal to
      the acknowledged canvas. */
  predicate Rests(v: ViewState, r: ViewState) {
    AtRest(r) ==>
      || (AtRest(v) && SameShown(v, r))
      || (v.canvas.baselineValid && !v.pace.pending && r.canvas.lastSentShm && r.canvas.shadow == v.canvas.shadow)
  }

  lemma MaybeSendDeferredRests(v: ViewState, env: Env)
    requires Facts(v)
    ensures Rests(v, MaybeSendDeferred(v, env))
  {
    var r := MaybeSendDeferred(v, env);
    if v.pace.credit && !v.pace.pending && v.link.connected && v.link.visible && v.deferred != Nothing {
      var u := ReadBackDeferred(v, env.readOk);
      assert u.canvas == v.canvas && u.deferred != Nothing;
    }
  }

  /** A callback that first keeps a snapshot can only come to rest by finding it
      unchanged. */
  lemma KeptThenRests(v: ViewState, u: ViewState, r: ViewState)
    requires Rests(u, r) && u.deferred != Nothing && u.canvas == v.canvas && u.pace.pending == v.pace.pending
    ensures Rests(v, r)
  {
  }

  lemma PaintPixelsRests(v: ViewState, next: Image, dirty: seq<DirtyRect>, env: Env)
    requires Facts(v) && v.link.connected && next.Valid()
    ensures Rests(v, PaintPixels(v, next, dirty, env))
  {
    if Busy(v) {
      var u := MarkDropped(CacheDeferredPixels(WithLatest(v, next), next));
      WithLatestKeeps(v, next);
      StoredKeeps(WithLatest(v, next), next);
      MaybeSendDeferredRests(u, env);
      KeptThenRests(v, u, MaybeSendDeferred(u, env));
    }
  }

  lemma OnPaintRests(v: ViewState, isView: bool, source: Option<seq<byte>>, w: int, h: int, dirty: seq<DirtyRect>,
                     env: Env)
    requires Facts(v) && w < INT_LIMIT && h < INT_LIMIT
    requires source.Some? && w > 0 && h > 0 ==> |source.value| == w * h * 4
    ensures Rests(v, OnPaint(v, isView, source, w, h, dirty, env))
  {
    if isView && source.Some? && v.link.connected && v.link.visible {
      if w > 0 && h > 0 && w * h * 4 <= PIXEL_BYTES_LIMIT {
        GlImageInvolution(source.value, w, h, BGRA);
        PaintPixelsRests(v, Image(w, h, GlImage(source.value, w * 4, w, h, BGRA)), dirty, env);
      }
    }
  }

  /** Keeping an accelerated paint leaves a snapshot, or the paint is lost. */
  lemma CacheDeferredGpuKept(v: ViewState, info: Accelerated, env: Env)
    requires Fits(v) && info.Valid()
    ensures var u := CacheDeferredGpu(v, info, env);
            u.canvas == v.canvas && u.pace.pending == v.pace.pending && (u.deferred != Nothing || !u.hist.kept)
  {
  }

  lemma DeferCaptureRests(v: ViewState, info: Accelerated, env: Env)
    requires Facts(v) && v.link.connected && info.Valid()
    requires info.Sized() ==> v.hist.latest == Some(info.Picture())
    ensures Rests(v, DeferCapture(v, info, env))
  {
    var u := MarkDropped(CacheDeferredGpu(v, info, env));
    CacheDeferredGpuKept(v, info, env);
    CacheDeferredGpuKeeps(v, info, env);
    MaybeSendDeferredRests(u, env);
    if u.deferred != Nothing {
      KeptThenRests(v, u, MaybeSendDeferred(u, env));
    }
  }

  /** A direct capture ends with a frame in flight, or the paint is lost. */
  lemma DirectCaptureRests(v: ViewState, info: Accelerated, dirty: seq<DirtyRect>, whole: bool, env: Env)
    requires Fits(v) && v.link.connected && !v.pace.pending && v.deferred == Nothing && info.Valid()
    ensures !AtRest(DirectCapture(v, info, dirty, whole, env))
  {
  }

  lemma OnAcceleratedPaintRests(v: ViewState, isView: bool, info: Accelerated, dirty: seq<DirtyRect>, env: Env)
    requires Facts(v) && info.Valid()
    ensures Rests(v, OnAcceleratedPaint(v, isView, info, dirty, env))
  {
    hide DeferCapture, DirectCapture, Base;
    if isView && v.link.connected && v.link.visible {
      var l := Captured(v, info);
      CapturedKeeps(v, info);
      CapturedQuiet(v, info);
      if Busy(v) {
        DeferCaptureRests(l, info, env);
        RestsThrough(v, l, DeferCapture(l, info, env));
      } else if v.pace.needsFull || !info.hasUpdateRect || (info.updateW > 0 && info.updateH > 0) {
        DirectCaptureRests(l, info, dirty, CaptureWhole(v, info, dirty, env), env);
      }
    }
  }

  /** Noting the newest paint moves nothing; and with no credit a view at rest
      does not come to rest again in the same callback. */
  lemma RestsThrough(v: ViewState, l: ViewState, r: ViewState)
    requires Rests(l, r) && l == v.(hist := l.hist) && (l.hist.kept ==> v.hist.kept)
    requires AtRest(r) && AtRest(l) ==> v.hist.latest.Some?
    ensures Rests(v, r)
  {
  }

  lemma SetOverlayVisibleRests(v: ViewState, visible: bool)
    requires Facts(v)
    ensures Rests(v, SetOverlayVisible(v, visible))
  {
  }

  // ----- Acknowledgements -----

  /** What processing an ACK of the frame in flight leaves. */
  predicate Acknowledged(v: ViewState, a: ViewState, ack: AckMsg) {
    && a.link.connected == v.link.connected && a.hist.wire == v.hist.wire && !a.pace.pending && a.gpu.bufs == v.gpu.bufs
    && (a.canvas.baselineValid ==>
          ack.code == Accepted && v.canvas.lastSentShm && a.canvas.lastSentShm && a.canvas.shadow == v.canvas.shadow)
    && (AtRest(a) ==>
          && ack.code == Accepted
          && a.canvas.lastSentShm == v.canvas.lastSentShm && a.canvas.shadow == v.canvas.shadow
          && (!v.canvas.lastSentShm ==> v.gpu.inflight.Some? && a.gpu.lastAcked == v.gpu.inflight))
    && a.mode.renderW == (if ack.w > 0 && ack.h > 0 then ack.w else v.mode.renderW)
    && a.mode.renderH == (if ack.w > 0 && ack.h > 0 then ack.h else v.mode.renderH)
  }

  lemma ProcessAckAcknowledges(v: ViewState, ack: AckMsg, readOk: bool)
    requires Facts(v) && v.pace.pending
    ensures Acknowledged(v, ProcessAck(v, ack, readOk), ack)
  {
    if ack.code == Accepted {
      FinishAcknowledges(v, Accept(v), ack);
    } else {
      RefusedDefers(v, ack.code, readOk);
      FinishAcknowledges(v, Refuse(v, ack.code, readOk), ack);
    }
  }

  /** If the newest paint was in flight, refusing it keeps it. */
  lemma RefusedDefers(v: ViewState, code: AckCode, readOk: bool)
    requires Facts(v) && v.pace.pending
    ensures var u := Refuse(v, code, readOk);
            && !u.canvas.baselineValid && (u.hist.kept ==> u.deferred != Nothing)
            && u.gpu.bufs == v.gpu.bufs && u.hist.kept == v.hist.kept
            && u.mode.renderW == v.mode.renderW && u.mode.renderH == v.mode.renderH
  {
  }

  lemma FinishAcknowledges(v: ViewState, u: ViewState, ack: AckMsg)
    requires Fits(u) && SameLink(v, u) && u.gpu.bufs == v.gpu.bufs
    requires u.mode.renderW == v.mode.renderW && u.mode.renderH == v.mode.renderH
    requires u.canvas.baselineValid ==>
               && ack.code == Accepted && v.canvas.lastSentShm
               && u.canvas.lastSentShm && u.canvas.shadow == v.canvas.shadow
    requires u.link.connected && u.hist.kept && u.hist.latest.Some? && u.deferred == Nothing ==>
               && ack.code == Accepted
               && u.canvas.lastSentShm == v.canvas.lastSentShm && u.canvas.shadow == v.canvas.shadow
               && (!v.canvas.lastSentShm ==> v.gpu.inflight.Some? && u.gpu.lastAcked == v.gpu.inflight)
    ensures Acknowledged(v, FinishAck(u, ack), ack)
  {
  }

  // ----- What callbacks do not count -----

  /** Requests received, the wish to quit, and what the game did to the buffers. */
  predicate SameCounts(v: ViewState, r: ViewState) {
    && r.hist.requests == v.hist.requests && r.link.quit == v.link.quit && r.hist.spared == v.hist.spared
    && r.link.connected == v.link.connected
  }

  lemma SendShmCounts(v: ViewState, next: Image, dirty: Option<seq<DirtyRect>>, verified: Option<Delta>, sendOk: bool)
    requires Fits(v) && v.link.connected && v.gpu.inflight == None && next.Valid()
    requires verified.Some? ==> verified.value.Fields32()
    ensures SameCounts(v, SendShmPixels(v, next, dirty, verified, sendOk))
  {
  }

  lemma SendDeferredCounts(v: ViewState, env: Env)
    requires Fits(v) && v.link.connected && !v.pace.pending
    ensures SameCounts(v, SendDeferred(v, env))
  {
    if v.deferred.Pixels? {
      var d := DeferredVerdict(v);
      SendShmCounts(v, v.deferred.image, None, if d.0 == Partial then Some(d.1) else None, env.sendOk);
    }
  }

  lemma MaybeSendDeferredCounts(v: ViewState, env: Env)
    requires Fits(v)
    ensures SameCounts(v, MaybeSendDeferred(v, env))
  {
    if v.pace.credit && !v.pace.pending && v.link.connected && v.link.visible && v.deferred != Nothing {
      var u := ReadBackDeferred(v, env.readOk);
      SendDeferredCounts(u, env);
    }
  }

  lemma OnPaintCounts(v: ViewState, isView: bool, source: Option<seq<byte>>, w: int, h: int, dirty: seq<DirtyRect>,
                      env: Env)
    requires Fits(v) && w < INT_LIMIT && h < INT_LIMIT
    requires source.Some? && w > 0 && h > 0 ==> |source.value| == w * h * 4
    ensures SameCounts(v, OnPaint(v, isView, source, w, h, dirty, env))
  {
    if isView && source.Some? && v.link.connected && v.link.visible
       && w > 0 && h > 0 && w * h * 4 <= PIXEL_BYTES_LIMIT {
      GlImageInvolution(source.value, w, h, BGRA);
      PaintPixelsCounts(v, Image(w, h, GlImage(source.value, w * 4, w, h, BGRA)), dirty, env);
      hide PaintPixels;
    }
  }

  lemma PaintPixelsCounts(v: ViewState, next: Image, dirty: seq<DirtyRect>, env: Env)
    requires Fits(v) && v.link.connected && next.Valid()
    ensures SameCounts(v, PaintPixels(v, next, dirty, env))
  {
    if Busy(v) {
      MaybeSendDeferredCounts(MarkDropped(CacheDeferredPixels(WithLatest(v, next), next)), env);
    } else {
      SendShmCounts(WithLatest(v, next), next, Some(dirty), None, env.sendOk);
    }
  }

  lemma CacheDeferredGpuCounts(v: ViewState, info: Accelerated, env: Env)
    requires Fits(v) && info.Valid()
    ensures SameCounts(v, CacheDeferredGpu(v, info, env))
  {
  }

  lemma TransmitCounts(v: ViewState, info: Accelerated, dirty: seq<DirtyRect>, full: bool, env: Env)
    requires Fits(v) && v.link.connected && !v.pace.pending && v.deferred == Nothing && info.Valid()
    ensures SameCounts(v, Transmit(v, info, dirty, full, env))
  {
    if !v.OnDma() && Mappable(info, env.mapOk) {
      SendShmCounts(v, Mapped(info), Some(dirty), None, env.sendOk);
    }
  }

  lemma DeferCaptureCounts(v: ViewState, info: Accelerated, env: Env)
    requires Fits(v) && info.Valid()
    ensures SameCounts(v, DeferCapture(v, info, env))
  {
    CacheDeferredGpuCounts(v, info, env);
    MaybeSendDeferredCounts(MarkDropped(CacheDeferredGpu(v, info, env)), env);
  }

  lemma DirectCaptureCounts(v: ViewState, info: Accelerated, dirty: seq<DirtyRect>, whole: bool, env: Env)
    requires Fits(v) && v.link.connected && !v.pace.pending && v.deferred == Nothing && info.Valid()
    ensures SameCounts(v, DirectCapture(v, info, dirty, whole, env))
  {
    TransmitCounts(v, info, dirty, !CanBlitDirty(v, info), env);
  }

  lemma OnAcceleratedPaintCounts(v: ViewState, isView: bool, info: Accelerated, dirty: seq<DirtyRect>, env: Env)
    requires Fits(v) && info.Valid()
    ensures SameCounts(v, OnAcceleratedPaint(v, isView, info, dirty, env))
  {
    if isView && v.link.connected && v.link.visible {
      var l := Captured(v, info);
      assert SameCounts(v, l);
      if Busy(v) {
        DeferCaptureCounts(l, info, env);
      } else if v.pace.needsFull || !info.hasUpdateRect || (info.updateW > 0 && info.updateH > 0) {
        DirectCaptureCounts(l, info, dirty, CaptureWhole(v, info, dirty, env), env);
      }
    }
  }

  lemma SetOverlayVisibleCounts(v: ViewState, visible: bool)
    requires Fits(v)
    ensures SameCounts(v, SetOverlayVisible(v, visible))
  {
  }

  lemma AcceptCounts(v: ViewState)
    requires Fits(v)
    ensures SameCounts(v, Accept(v))
  {
  }

  lemma RefuseCounts(v: ViewState, code: AckCode, readOk: bool)
    requires Fits(v)
    ensures SameCounts(v, Refuse(v, code, readOk))
  {
  }

  lemma FinishCounts(v: ViewState, ack: AckMsg)
    requires Fits(v)
    ensures SameCounts(v, FinishAck(v, ack))
  {
  }

  lemma TakeAckCounts(v: ViewState, ack: Option<AckMsg>, readOk: bool)
    requires Fits(v)
    ensures SameCounts(v, TakeAck(v, ack, readOk))
  {
    if v.pace.pending && ack.Some? {
      AcceptCounts(v);
      RefuseCounts(v, ack.value.code, readOk);
      var u := if ack.value.code == Accepted then Accept(v) else Refuse(v, ack.value.code, readOk);
      FinishCounts(u, ack.value);
    }
  }

  /** A poll counts the requests it was given and quits at a SHUTDOWN. */
  lemma PollSocketCounts(v: ViewState, ack: Option<AckMsg>, reqs: seq<Request>, up: bool, env: Env)
    requires Fits(v) && v.link.connected
    ensures var r := PollSocket(v, ack, reqs, up, env);
            && r.hist.requests == v.hist.requests + CountNextFrames(reqs)
            && r.link.quit == (v.link.quit || Shutdown in reqs)
            && r.hist.spared == v.hist.spared && r.link.connected
  {
    var a := TakeAck(v, ack, env.readOk);
    TakeAckCounts(v, ack, env.readOk);
    MaybeSendDeferredCounts(TakeRequests(a, reqs, up), env);
  }
}
