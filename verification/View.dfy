/** The producer's view with the fields and callbacks of the C++ class. Each
    method does in place what the function of the same name in ViewState says. */
module View {
  import opened Bytes
  import opened Raster
  import opened ShmDelta
  import opened ShmFormat
  import opened ShmDiff
  import opened DirtyRoi
  import opened GpuBuf
  import opened ControlWire
  import S = ViewState
  import opened ViewFacts

  // ----- Groups of fields; Link, Pace and Mode are shared with the value -----

  datatype DeferredKind = NoFrame | PixelFrame | GpuFrame

  /** deferred_kind_, deferred_pixels_, deferred_w_, deferred_h_, deferred_gpu_ptr_ */
  datatype Deferral = Deferral(kind: DeferredKind, pixels: seq<byte>, w: nat, h: nat, ptr: GpuBuf?)

  /** A buffer pointer and the size beside it: gpu_inflight_, sent_w_, sent_h_, or
      gpu_last_acked_, gpu_last_w_, gpu_last_h_. */
  datatype Flight = Flight(buffer: GpuBuf?, w: nat, h: nat)

  /** shm_shadow_, shm_shadow_w_, shm_shadow_h_; empty for no snapshot. */
  datatype Shadow = Shadow(px: seq<byte>, w: nat, h: nat)

  /** Proof only: the pixels each buffer had when a pointer to it was recorded. */
  datatype Recorded = Recorded(deferred: seq<byte>, inflight: seq<byte>, lastAcked: seq<byte>)

  // ----- Patching the canvas snapshot -----

  lemma PatchedRow(w: nat, h: nat, r: Rect, row: nat, i: nat)
    requires Inside(r, w, h) && row < r.height && i < w * h * 4
    ensures var at := Addr(w, r.x, r.y + row);
            at <= i < at + r.width * 4 <==> Row(w, i) == r.y + row && r.x <= Col(w, i) < r.x + r.width
  {
    CoordsAddr(w, h, i);
    var at := Addr(w, r.x, r.y + row);
    if at <= i < at + r.width * 4 {
      var k := (i - at) / 4;
      AddrCoords(w, r.x + k, r.y + row, (i - at) % 4);
      assert Addr(w, r.x + k, r.y + row) + (i - at) % 4 == i;
    }
  }

  lemma PatchGrows(shadow: seq<byte>, px: seq<byte>, w: nat, h: nat, r: Rect, row: nat)
    requires w > 0 && |shadow| == |px| == w * h * 4 && Inside(r, w, h) && row < r.height
    ensures Addr(w, r.x, r.y + row) + r.width * 4 <= |px|
    ensures var at, n := Addr(w, r.x, r.y + row), r.width * 4;
            var p := Patch(shadow, w, r.(height := row), px);
            Patch(shadow, w, r.(height := row + 1), px) == p[..at] + px[at..at + n] + p[at + n..]
  {
    var at, n := Addr(w, r.x, r.y + row), r.width * 4;
    AddrBound(w, h, r.x + r.width - 1, r.y + row);
    var p, q := Patch(shadow, w, r.(height := row), px), Patch(shadow, w, r.(height := row + 1), px);
    forall i | 0 <= i < |px| ensures q[i] == if at <= i < at + n then px[i] else p[i] {
      PatchedRow(w, h, r, row, i);
    }
  }

  /** The row loop that copies one rectangle into the snapshot. */
  method PatchShadow(shadow: seq<byte>, px: seq<byte>, w: nat, h: nat, r: Rect) returns (s: seq<byte>)
    requires w > 0 && |shadow| == |px| == w * h * 4 && Inside(r, w, h)
    ensures s == Patch(shadow, w, r, px)
  {
    s := shadow;
    var row := 0;
    while row < r.height
      invariant row <= r.height
      invariant s == Patch(shadow, w, r.(height := row), px)
    {
      PatchGrows(shadow, px, w, h, r, row);
      var at, n := Addr(w, r.x, r.y + row), r.width * 4;
      s := s[..at] + px[at..at + n] + s[at + n..];
      row := row + 1;
    }
  }

  // ----- The class -----

  class View {
    const gpu: GpuBuf
    const deferredGpu: GpuBuf
    var link: S.Link
    var pace: S.Pace
    var mode: S.Mode
    var deferred: Deferral
    var inflight: Flight
    var lastAcked: Flight
    var baselineValid: bool
    var lastSentShm: bool
    var shadow: Shadow
    ghost var recorded: Recorded
    ghost var hist: S.History

    ghost function Name(g: GpuBuf): S.BufName {
      if g == gpu then S.Main else S.Spare
    }

    ghost function Point(f: Flight, px: seq<byte>): Option<S.Held> {
      if f.buffer == null then None else Some(S.Held(Name(f.buffer), S.Image(f.w, f.h, px)))
    }

    ghost function Shot(d: Deferral, px: seq<byte>): S.Snapshot {
      match d.kind
      case NoFrame => S.Nothing
      case PixelFrame => S.Pixels(S.Image(d.w, d.h, d.pixels))
      case GpuFrame => if d.ptr == null then S.Nothing else S.Buffer(S.Held(Name(d.ptr), S.Image(d.w, d.h, px)))
    }

    static ghost function Picture(c: Shadow): Option<S.Image> {
      if c.px == [] then None else Some(S.Image(c.w, c.h, c.px))
    }

    ghost function Abs(): S.ViewState
      reads this, gpu, deferredGpu
    {
      S.ViewState(link, pace, mode, Shot(deferred, recorded.deferred),
                  S.Gpu(S.Buffers(gpu.Value(), deferredGpu.Value()), Point(inflight, recorded.inflight),
                        Point(lastAcked, recorded.lastAcked)),
                  S.Canvas(baselineValid, lastSentShm, Picture(shadow)), hist)
    }

    ghost predicate Own(g: GpuBuf?) {
      g == null || g == gpu || g == deferredGpu
    }

    /** The pointers name this view's own buffers. */
    ghost predicate Owns()
      reads this
    {
      && gpu != deferredGpu && Own(deferred.ptr) && Own(inflight.buffer) && Own(lastAcked.buffer)
      && (deferred.kind == GpuFrame ==> deferred.ptr != null)
    }

    ghost predicate Valid()
      reads this, gpu, deferredGpu
    {
      Owns() && S.Fits(Abs())
    }

    constructor (useDmabuf: bool, shmRoiEnabled: bool, w: int, h: int)
      ensures Abs() == S.Start(useDmabuf, shmRoiEnabled, w, h)
      ensures Valid() && Facts(Abs()) && fresh(gpu) && fresh(deferredGpu)
    {
      gpu := new GpuBuf();
      deferredGpu := new GpuBuf();
      link := S.Link(false, true, false, false);
      pace := S.Pace(false, false, true, false, None);
      mode := S.Mode(useDmabuf, false, 0, w, h, shmRoiEnabled);
      deferred, inflight, lastAcked := Deferral(NoFrame, [], 0, 0, null), Flight(null, 0, 0), Flight(null, 0, 0);
      baselineValid, lastSentShm, shadow := false, false, Shadow([], 0, 0);
      recorded, hist := Recorded([], [], []), S.Start(useDmabuf, shmRoiEnabled, w, h).hist;
      StartFacts(useDmabuf, shmRoiEnabled, w, h);
    }

    // ----- Sending -----

    /** Which rectangle to send, if any. */
    method ChooseRoi(w: nat, h: nat, dirty: Option<seq<DirtyRect>>, verified: Option<Delta>)
      returns (roi: Option<Delta>)
      requires Valid() && 0 < w < INT_LIMIT && 0 < h < INT_LIMIT
      ensures roi == S.SentRoi(Abs(), w, h, dirty, verified)
    {
      roi := None;
      if mode.roiEnabled && baselineValid {
        if verified.Some?
           && Validate(verified, w, h, verified.value.Length()) {
          roi := verified;
        } else if !pace.needsFull && dirty.Some? {
          var ok, chosen := ChooseShmRoi(dirty.value, w, h, Delta(0, 0, 0, 0, 0));
          roi := if ok then Some(chosen) else None;
        }
      }
    }

    /** The bytes written into the memory file, and the frame announcing them. */
    method Payload(px: seq<byte>, w: nat, h: nat, roi: Option<Delta>) returns (frame: S.Frame)
      requires S.Image(w, h, px).Valid()
      requires roi.Some? ==> roi.value.Fields32() && roi.value.magic == DELTA_MAGIC && Inside(roi.value.Area(), w, h)
      ensures frame == S.ShmFrame(S.Image(w, h, px), roi)
    {
      if roi.None? {
        return S.ShmFull(w, h, px);
      }
      CanvasFits(w, h);
      InsideArea(roi.value.Area(), w, h);
      var payload := roi.value.TrueLength();
      var mapping := new byte[payload];
      var ok := Pack(mapping, payload, Some(px), w, h, roi);
      return S.ShmRect(w, h, mapping[..]);
    }

    /** The snapshot with the frame just sent applied to it. */
    method NextShadow(px: seq<byte>, w: nat, h: nat, roi: Option<Delta>) returns (s: seq<byte>)
      requires Valid() && S.Image(w, h, px).Valid()
      requires roi.Some? ==> Inside(roi.value.Area(), w, h)
      ensures S.Image(w, h, s) == S.NewShadow(Abs().canvas.shadow, S.Image(w, h, px), roi) && s != []
    {
      if roi.Some? && shadow.w == w && shadow.h == h && |shadow.px| == w * h * 4 {
        s := PatchShadow(shadow.px, px, w, h, roi.value.Area());
      } else {
        s := px;
      }
    }

    method SendShmPixels(px: seq<byte>, w: nat, h: nat, dirty: Option<seq<DirtyRect>>, verified: Option<Delta>,
                         sendOk: bool)
      requires Valid() && link.connected && inflight.buffer == null && S.Image(w, h, px).Valid()
      requires verified.Some? ==> verified.value.Fields32()
      modifies this
      ensures Abs() == S.SendShmPixels(old(Abs()), S.Image(w, h, px), dirty, verified, sendOk)
      ensures Valid()
    {
      var roi := ChooseRoi(w, h, dirty, verified);
      if roi.Some? {
        S.SentRoiFits(Abs(), w, h, dirty, verified);
      }
      if !sendOk {
        return;
      }
      var frame := Payload(px, w, h, roi);
      RecordShm(px, w, h, roi, frame);
    }

    /** The frame went out: the snapshot and the flags follow. */
    method RecordShm(px: seq<byte>, w: nat, h: nat, roi: Option<Delta>, frame: S.Frame)
      requires Valid() && link.connected && inflight.buffer == null && S.Image(w, h, px).Valid()
      requires roi.Some? ==> roi.value.Fields32() && roi.value.magic == DELTA_MAGIC && Inside(roi.value.Area(), w, h)
      requires frame == S.ShmFrame(S.Image(w, h, px), roi)
      modifies this
      ensures Abs() == S.Sent(old(Abs()), S.Image(w, h, px), roi)
      ensures Valid()
    {
      var s := NextShadow(px, w, h, roi);
      MarkShmSent(s, w, h, frame);
    }

    method MarkShmSent(s: seq<byte>, w: nat, h: nat, frame: S.Frame)
      requires Owns() && inflight.buffer == null && s != []
      modifies this
      ensures var v := old(Abs());
              Abs() == v.(canvas := v.canvas.(shadow := Some(S.Image(w, h, s)), lastSentShm := true),
                          pace := v.pace.(pending := true, credit := false),
                          hist := S.Wired(v.hist, frame, S.Image(w, h, s)))
      ensures Owns()
    {
      shadow := Shadow(s, w, h);
      pace := pace.(pending := true, credit := false);
      lastSentShm := true;
      inflight := inflight.(w := w, h := h);
      hist := S.Wired(hist, frame, S.Image(w, h, s));
    }

    // ----- The deferred snapshot -----

    method CacheDeferredPixels(pixels: seq<byte>, w: nat, h: nat)
      requires Valid() && S.Image(w, h, pixels).Valid()
      modifies this
      ensures Abs() == if w * h * 4 > PIXEL_BYTES_LIMIT then old(Abs())
                       else S.CacheDeferredPixels(old(Abs()), S.Image(w, h, pixels))
      ensures Valid()
    {
      if w * h * 4 > PIXEL_BYTES_LIMIT {
        return;
      }
      KeepPixels(pixels, w, h);
      Remember(S.Stored(hist, S.Image(w, h, pixels)));
    }

    method KeepPixels(pixels: seq<byte>, w: nat, h: nat)
      requires Owns()
      modifies this
      ensures var v := old(Abs());
              Abs() == v.(deferred := S.Pixels(S.Image(w, h, pixels)), pace := v.pace.(counter := None))
      ensures Owns()
    {
      deferred := Deferral(PixelFrame, pixels, w, h, null);
      pace := pace.(counter := None);
    }

    /** The staging buffer that no in-flight frame refers to. */
    method Target() returns (g: GpuBuf)
      requires Valid()
      ensures Own(g) && g != inflight.buffer && Name(g) == S.Target(Abs())
    {
      g := if inflight.buffer == gpu then deferredGpu else gpu;
    }

    method ForgetAcked(g: GpuBuf)
      requires Valid() && Own(g)
      modifies this`lastAcked
      ensures Abs() == S.ForgetAcked(old(Abs()), Name(g))
      ensures Valid()
    {
      if g == lastAcked.buffer {
        lastAcked := lastAcked.(buffer := null);
      }
    }

    method Blit(g: GpuBuf, info: S.Accelerated, dirty: seq<DirtyRect>, full: bool, env: BlitEnv) returns (ok: bool)
      requires Valid() && Own(g) && g != inflight.buffer && g != lastAcked.buffer
      requires info.Valid() && info.Sized()
      modifies g
      ensures var r := S.BlitOf(old(g.Value()), info, dirty, full, env);
              ok == r.1 && Abs() == S.Restaged(old(Abs()), Name(g), r.0)
      ensures Owns()
    {
      ok := g.Export(info.planes, info.texture, info.w, info.h, dirty, full, env);
    }

    method StageInto(info: S.Accelerated, dirty: seq<DirtyRect>, full: bool, env: BlitEnv) returns (g: GpuBuf, ok: bool)
      requires Valid() && info.Valid() && info.Sized()
      modifies this`lastAcked, gpu, deferredGpu
      ensures (Abs(), ok) == S.StageInto(old(Abs()), info, dirty, full, env)
      ensures Owns() && Own(g) && Name(g) == S.Target(old(Abs()))
    {
      g := Target();
      ForgetAcked(g);
      ok := Blit(g, info, dirty, full, env);
    }

    method CacheDeferredGpu(info: S.Accelerated, env: S.Env)
      requires Valid() && info.Valid()
      modifies this, gpu, deferredGpu
      ensures Abs() == S.CacheDeferredGpu(old(Abs()), info, env)
      ensures Valid()
    {
      if info.w <= 0 || info.h <= 0 {
        Lose();
        return;
      }
      var target, ok := StageInto(info, [], true, env.blit);
      if ok {
        DeferGpu(target, info.w, info.h, [], info.Picture().px);
        Uncount();
        Remember(S.Stored(hist, info.Picture()));
        return;
      }
      CacheMapped(info, env.mapOk);
    }

    /** The CPU copy of a linear plane. */
    method CacheMapped(info: S.Accelerated, mapOk: bool)
      requires Valid() && info.Valid() && info.Sized()
      modifies this
      ensures Abs() == if S.Mappable(info, mapOk) then S.CacheDeferredPixels(old(Abs()), S.Mapped(info))
                       else S.Lost(old(Abs()))
      ensures Valid()
    {
      if info.planes < 1 || info.modifier != 0 || info.stride < info.w * 4 || info.stride * info.h > |info.plane|
         || info.w * info.h * 4 > PIXEL_BYTES_LIMIT || !mapOk {
        Lose();
        return;
      }
      var converted, pixels := ToGlRgba(Some(info.plane), info.stride, info.w, info.h, info.channels, deferred.pixels);
      KeepPixels(pixels, info.w, info.h);
      Remember(S.Stored(hist, S.Mapped(info)));
    }

    ghost method Remember(h: S.History)
      requires Owns()
      modifies this`hist
      ensures Abs() == old(Abs()).(hist := h)
      ensures Owns()
    {
      hist := h;
    }

    /** The proof notes that the newest paint could not be kept or sent. */
    ghost method Lose()
      requires Valid()
      modifies this`hist
      ensures Abs() == S.Lost(old(Abs()))
      ensures Valid()
    {
      hist := hist.(kept := false);
    }

    method Uncount()
      requires Owns()
      modifies this`pace
      ensures Abs() == old(Abs()).(pace := old(pace).(counter := None))
      ensures Owns()
    {
      pace := pace.(counter := None);
    }

    method DeferGpu(g: GpuBuf, w: nat, h: nat, pixels: seq<byte>, ghost px: seq<byte>)
      requires Owns() && Own(g)
      modifies this`deferred, this`recorded
      ensures Abs() == old(Abs()).(deferred := S.Buffer(S.Held(Name(g), S.Image(w, h, px))))
      ensures Owns()
    {
      deferred := Deferral(GpuFrame, pixels, w, h, g);
      recorded := recorded.(deferred := px);
    }

    method SendOwnedGpu(buffer: GpuBuf, w: nat, h: nat, sendOk: bool) returns (sent: bool)
      requires Valid() && link.connected && Own(buffer)
      requires S.HeldFits(Abs().gpu.bufs, S.Held(Name(buffer), S.Image(w, h, Abs().gpu.bufs.At(Name(buffer)).image)))
      modifies this
      ensures sent == (buffer.bo && sendOk)
      ensures Abs() == if sent then S.SentGpu(old(Abs()), Name(buffer), w, h) else old(Abs())
      ensures Valid()
    {
      if !buffer.bo || !sendOk {
        return false;
      }
      LaunchGpu(buffer, w, h);
      return true;
    }

    method LaunchGpu(buffer: GpuBuf, w: nat, h: nat)
      requires Valid() && link.connected && Own(buffer)
      requires S.HeldFits(Abs().gpu.bufs, S.Held(Name(buffer), S.Image(w, h, Abs().gpu.bufs.At(Name(buffer)).image)))
      modifies this
      ensures Abs() == S.SentGpu(old(Abs()), Name(buffer), w, h)
      ensures Valid()
    {
      ghost var bufs := Abs().gpu.bufs;
      Fly(buffer, w, h, bufs.At(Name(buffer)).image, S.StagedFrame(bufs, Name(buffer), w, h));
    }

    method Fly(buffer: GpuBuf, w: nat, h: nat, ghost px: seq<byte>, ghost frame: S.Frame)
      requires Owns() && Own(buffer)
      modifies this
      ensures var v := old(Abs());
              Abs() == v.(pace := v.pace.(pending := true), canvas := v.canvas.(lastSentShm := false),
                          gpu := v.gpu.(inflight := Some(S.Held(Name(buffer), S.Image(w, h, px)))),
                          hist := S.Wired(v.hist, frame, S.Image(w, h, px)))
      ensures Owns()
    {
      pace := pace.(pending := true);
      lastSentShm := false;
      inflight := Flight(buffer, w, h);
      recorded := recorded.(inflight := px);
      hist := S.Wired(hist, frame, S.Image(w, h, px));
    }

    method ReadBackDeferred(readOk: bool)
      requires Valid()
      modifies this
      ensures Abs() == S.ReadBackDeferred(old(Abs()), readOk)
      ensures Valid()
    {
      if deferred.kind == GpuFrame && deferred.ptr != null {
        if !mode.useDma || mode.dmaFailed {
          var read := deferred.ptr.Read(readOk);
          if read.Some? {
            DeferPixels(read.value, deferred.w, deferred.h);
          }
        }
      }
    }

    method DeferPixels(px: seq<byte>, w: nat, h: nat)
      requires Owns()
      modifies this`deferred
      ensures Abs() == old(Abs()).(deferred := S.Pixels(S.Image(w, h, px)))
      ensures Owns()
    {
      deferred := Deferral(PixelFrame, px, w, h, null);
    }

    /** Compares the deferred pixels with the acknowledged canvas. */
    method Compare() returns (result: DeltaResult, delta: Delta)
      requires Valid() && deferred.kind == PixelFrame
      ensures result == S.DeferredVerdict(Abs()).0
      ensures result == Partial ==> delta == S.DeferredVerdict(Abs()).1
    {
      result, delta := Full, Delta(0, 0, 0, 0, 0);
      if mode.roiEnabled && baselineValid && deferred.w == shadow.w && deferred.h == shadow.h
         && |deferred.pixels| == |shadow.px| {
        result, delta := CompareCanvas(deferred.pixels, shadow.px, deferred.w, deferred.h);
      }
    }

    method CompareCanvas(px: seq<byte>, canvas: seq<byte>, w: nat, h: nat) returns (result: DeltaResult, delta: Delta)
      requires S.Image(w, h, px).Valid() && |canvas| == |px|
      ensures result == Verdict(DiffPixels(px, canvas, w, h), w, h).0
      ensures result == Partial ==> delta == Verdict(DiffPixels(px, canvas, w, h), w, h).1
    {
      CanvasFits(w, h);
      result, delta := FindDelta(Some(px), Some(canvas), w, h, Delta(0, 0, 0, 0, 0));
      SpecDetermines(DiffPixels(px, canvas, w, h), w, h, result, delta);
    }

    method SkipDeferred()
      requires Owns()
      modifies this
      ensures var v := old(Abs());
              Abs() == v.(deferred := S.Nothing, pace := v.pace.(credit := false, needsFull := false, dropped := false))
      ensures Owns()
    {
      deferred := deferred.(kind := NoFrame, pixels := []);
      pace := pace.(credit := false, needsFull := false, dropped := false);
    }

    method AfterDeferred()
      requires Owns()
      modifies this
      ensures var v := old(Abs());
              Abs() == v.(deferred := S.Nothing, pace := v.pace.(credit := false, needsFull := true, dropped := false))
      ensures Owns()
    {
      deferred := deferred.(kind := NoFrame, pixels := [], ptr := null);
      pace := pace.(credit := false, needsFull := true, dropped := false);
    }

    method SendDeferredPixels(sendOk: bool)
      requires Valid() && deferred.kind == PixelFrame && link.connected && !pace.pending
      modifies this
      ensures Abs() == S.SendDeferredPixels(old(Abs()), sendOk)
      ensures Valid()
    {
      var result, delta := Compare();
      if result == Unchanged {
        SkipDeferred();
        return;
      }
      var verified := if result == Partial then Some(delta) else None;
      SendShmPixels(deferred.pixels, deferred.w, deferred.h, None, verified, sendOk);
      if pace.pending {
        AfterDeferred();
      }
    }

    method SendDeferredGpu(sendOk: bool)
      requires Valid() && deferred.kind == GpuFrame && link.connected && !pace.pending
      modifies this
      ensures Abs() == S.SendDeferredGpu(old(Abs()), sendOk)
      ensures Valid()
    {
      if mode.useDma && !mode.dmaFailed {
        var sent := SendOwnedGpu(deferred.ptr, deferred.w, deferred.h, sendOk);
        if sent {
          AfterDeferred();
        }
      }
    }

    method MaybeSendDeferred(env: S.Env)
      requires Valid()
      modifies this
      ensures Abs() == S.MaybeSendDeferred(old(Abs()), env)
      ensures Valid()
    {
      if !pace.credit || pace.pending || !link.connected || !link.visible || deferred.kind == NoFrame {
        return;
      }
      ReadBackDeferred(env.readOk);
      SendDeferred(env);
    }

    method SendDeferred(env: S.Env)
      requires Valid() && link.connected && !pace.pending
      modifies this
      ensures Abs() == S.SendDeferred(old(Abs()), env)
      ensures Valid()
    {
      if deferred.kind == GpuFrame {
        SendDeferredGpu(env.sendOk);
      } else if deferred.kind == PixelFrame {
        SendDeferredPixels(env.sendOk);
      }
    }

    // ----- Paint callbacks -----

    /** The proof notes the newest paint delivered. */
    ghost method Deliver(next: S.Image)
      requires Valid()
      modifies this`hist
      ensures Abs() == S.WithLatest(old(Abs()), next)
      ensures Valid()
    {
      hist := hist.(latest := Some(next), kept := hist.kept && hist.latest == Some(next));
    }

    method OnPaint(isView: bool, source: Option<seq<byte>>, w: int, h: int, dirty: seq<DirtyRect>, env: S.Env)
      requires Valid() && w < INT_LIMIT && h < INT_LIMIT
      requires source.Some? && w > 0 && h > 0 ==> |source.value| == w * h * 4
      modifies this
      ensures Abs() == S.OnPaint(old(Abs()), isView, source, w, h, dirty, env)
      ensures Valid() && (old(Facts(Abs())) ==> Facts(Abs()))
    {
      hide Base, Fresh, S.PaintPixels;
      if Facts(Abs()) {
        OnPaintKeeps(Abs(), isView, source, w, h, dirty, env);
      }
      if !isView || source.None? || !link.connected || !link.visible {
        return;
      }
      if w > 0 && h > 0 {
        GlImageInvolution(source.value, w, h, BGRA);
      }
      var ok, rgba := ToGlRgba(source, w * 4 % U32_LIMIT, w, h, BGRA, []);
      if !ok {
        Lose();
        return;
      }
      PaintPixels(rgba, w, h, dirty, env);
    }

    method PaintPixels(rgba: seq<byte>, w: nat, h: nat, dirty: seq<DirtyRect>, env: S.Env)
      requires Valid() && link.connected && S.Image(w, h, rgba).Valid() && w * h * 4 <= PIXEL_BYTES_LIMIT
      modifies this
      ensures Abs() == S.PaintPixels(old(Abs()), S.Image(w, h, rgba), dirty, env)
      ensures Valid()
    {
      ghost var whole := S.SentWhole(Abs(), S.Image(w, h, rgba), dirty);
      Deliver(S.Image(w, h, rgba));
      if pace.pending || !pace.credit || deferred.kind != NoFrame {
        CacheDeferredPixels(rgba, w, h);
        MarkDropped();
        MaybeSendDeferred(env);
      } else {
        DirectPixels(rgba, w, h, dirty, whole, env.sendOk);
      }
    }

    method MarkDropped()
      requires Owns()
      modifies this`pace
      ensures Abs() == old(Abs()).(pace := old(pace).(dropped := true, needsFull := true, counter := None))
      ensures Owns()
    {
      pace := pace.(dropped := true, needsFull := true, counter := None);
    }

    method DirectPixels(rgba: seq<byte>, w: nat, h: nat, dirty: seq<DirtyRect>, ghost whole: bool, sendOk: bool)
      requires Valid() && link.connected && !pace.pending && S.Image(w, h, rgba).Valid()
      modifies this
      ensures Abs() == S.DirectPixels(old(Abs()), S.Image(w, h, rgba), dirty, whole, sendOk)
      ensures Valid()
    {
      SendShmPixels(rgba, w, h, Some(dirty), None, sendOk);
      if pace.pending {
        AfterPaint();
        Remember(hist.(kept := whole));
      }
    }

    method AfterPaint()
      requires Owns()
      modifies this`pace
      ensures var v := old(Abs());
              Abs() == v.(pace := v.pace.(credit := false, needsFull := true, counter := None, dropped := false))
      ensures Owns()
    {
      pace := pace.(credit := false, needsFull := true, counter := None, dropped := false);
    }

    method OnAcceleratedPaint(isView: bool, info: S.Accelerated, dirty: seq<DirtyRect>, env: S.Env)
      requires Valid() && info.Valid()
      modifies this, gpu, deferredGpu
      ensures Abs() == S.OnAcceleratedPaint(old(Abs()), isView, info, dirty, env)
      ensures Valid() && (old(Facts(Abs())) ==> Facts(Abs()))
    {
      if Facts(Abs()) {
        OnAcceleratedPaintKeeps(Abs(), isView, info, dirty, env);
      }
      if !isView || !link.connected || !link.visible {
        return;
      }
      Accelerate(info, dirty, env);
    }

    /** A paint delivered while connected and visible. */
    method Accelerate(info: S.Accelerated, dirty: seq<DirtyRect>, env: S.Env)
      requires Valid() && info.Valid() && link.connected && link.visible
      modifies this, gpu, deferredGpu
      ensures Abs() == S.OnAcceleratedPaint(old(Abs()), true, info, dirty, env)
      ensures Valid()
    {
      ghost var whole := S.CaptureWhole(Abs(), info, dirty, env);
      Capture(info);
      if pace.pending || !pace.credit || deferred.kind != NoFrame {
        DeferCapture(info, env);
        return;
      }
      if !pace.needsFull && info.hasUpdateRect && (info.updateW <= 0 || info.updateH <= 0) {
        return;
      }
      DirectCapture(info, dirty, whole, env);
    }

    method DeferCapture(info: S.Accelerated, env: S.Env)
      requires Valid() && info.Valid()
      modifies this, gpu, deferredGpu
      ensures Abs() == S.DeferCapture(old(Abs()), info, env)
      ensures Valid()
    {
      CacheDeferredGpu(info, env);
      MarkDropped();
      MaybeSendDeferred(env);
    }

    /** The proof notes a delivered accelerated paint. */
    ghost method Capture(info: S.Accelerated)
      requires Valid() && info.Valid()
      modifies this`hist
      ensures Abs() == S.Captured(old(Abs()), info)
      ensures Valid()
    {
      if info.Sized() {
        Deliver(info.Picture());
      } else {
        Lose();
      }
    }

    method CanBlitDirty(info: S.Accelerated) returns (can: bool)
      ensures can == S.CanBlitDirty(Abs(), info)
    {
      can := !pace.needsFull && info.counter.Some? && pace.counter.Some?
             && info.counter.value == U64(pace.counter.value + 1) && info.hasUpdateRect
             && info.visibleX == 0 && info.visibleY == 0 && info.codedW == info.w && info.codedH == info.h;
    }

    method DirectCapture(info: S.Accelerated, dirty: seq<DirtyRect>, ghost whole: bool, env: S.Env)
      requires Valid() && link.connected && !pace.pending && deferred.kind == NoFrame && info.Valid()
      modifies this, gpu, deferredGpu
      ensures Abs() == S.DirectCapture(old(Abs()), info, dirty, whole, env)
      ensures Valid()
    {
      var canBlitDirty := CanBlitDirty(info);
      Transmit(info, dirty, !canBlitDirty, env);
      Finish(info.counter, whole);
    }

    method Transmit(info: S.Accelerated, dirty: seq<DirtyRect>, full: bool, env: S.Env)
      requires Valid() && link.connected && !pace.pending && deferred.kind == NoFrame && info.Valid()
      modifies this, gpu, deferredGpu
      ensures Abs() == S.Transmit(old(Abs()), info, dirty, full, env)
      ensures Valid()
    {
      if mode.useDma && !mode.dmaFailed {
        SendFrameDmaBuf(info, dirty, full, env);
      } else {
        SendShmFromDmaBuf(info, dirty, env);
      }
    }

    method Finish(counter: Option<nat>, ghost whole: bool)
      requires Valid()
      modifies this
      ensures Abs() == S.Finish(old(Abs()), counter, whole)
      ensures Valid()
    {
      if pace.pending {
        AfterCapture(counter);
        Remember(S.NewCapture(hist, Abs().gpu.inflight, whole));
      } else {
        NeedFull();
        Remember(hist.(kept := false, based := false));
      }
    }

    method NeedFull()
      requires Owns()
      modifies this`pace
      ensures Abs() == old(Abs()).(pace := old(pace).(needsFull := true))
      ensures Owns()
    {
      pace := pace.(needsFull := true);
    }

    method AfterCapture(counter: Option<nat>)
      requires Owns()
      modifies this`pace
      ensures var v := old(Abs());
              Abs() == v.(pace := v.pace.(credit := false, needsFull := true, dropped := false, counter := counter))
      ensures Owns()
    {
      pace := pace.(credit := false, needsFull := true, dropped := false, counter := counter);
    }

    method SendFrameDmaBuf(info: S.Accelerated, dirty: seq<DirtyRect>, full: bool, env: S.Env)
      requires Valid() && link.connected && !pace.pending && deferred.kind == NoFrame && info.Valid()
      modifies this, gpu, deferredGpu
      ensures Abs() == S.SendFrameDmaBuf(old(Abs()), info, dirty, full, env)
      ensures Valid()
    {
      if info.w <= 0 || info.h <= 0 {
        return;
      }
      var target, staged := StageInto(info, dirty, full, env.blit);
      if staged {
        if env.sendOk {
          LaunchGpu(target, info.w, info.h);
        }
        return;
      }
      if info.planes < 1 || info.planes > 4 || !env.sendOk {
        return;
      }
      Forward(info.w, info.h);
    }

    method Forward(w: nat, h: nat)
      requires Valid() && link.connected && !pace.pending
      modifies this
      ensures Abs() == S.Forwarded(old(Abs()), w, h)
      ensures Valid()
    {
      pace := pace.(pending := true);
      lastSentShm := false;
      inflight := inflight.(w := w, h := h);
      hist := S.Wired(hist, S.DmaForwarded(w, h), S.NO_IMAGE);
    }

    method SendShmFromDmaBuf(info: S.Accelerated, dirty: seq<DirtyRect>, env: S.Env)
      requires Valid() && link.connected && !pace.pending && info.Valid()
      modifies this
      ensures Abs() == S.SendShmFromDmaBuf(old(Abs()), info, dirty, env)
      ensures Valid()
    {
      if info.planes < 1 || info.modifier != 0 || info.w <= 0 || info.h <= 0 || info.stride < info.w * 4
         || info.stride * info.h > |info.plane| || !env.mapOk {
        return;
      }
      var converted, rgba := ToGlRgba(Some(info.plane), info.stride, info.w, info.h, info.channels, []);
      if converted {
        SendShmPixels(rgba, info.w, info.h, Some(dirty), None, env.sendOk);
      }
    }

    // ----- Control -----

    /** What was put on screen is remembered if it came from a staging buffer. */
    method MarkAccepted()
      requires Valid()
      modifies this
      ensures Abs() == S.MarkAccepted(old(Abs()))
      ensures Valid()
    {
      Remember(hist.(acceptedImg := hist.sentImg));
      if !lastSentShm && inflight.buffer != null {
        SetLastAcked(inflight, recorded.inflight);
      } else if lastSentShm {
        SetLastAcked(lastAcked.(buffer := null), recorded.lastAcked);
      }
    }

    method SetLastAcked(f: Flight, ghost px: seq<byte>)
      requires Owns() && Own(f.buffer)
      modifies this`lastAcked, this`recorded
      ensures var v := old(Abs()); Abs() == v.(gpu := v.gpu.(lastAcked := Point(f, px)))
      ensures Owns()
    {
      lastAcked := f;
      recorded := recorded.(lastAcked := px);
    }

    /** The canvas snapshot becomes the deferred one. */
    method DeferShadow(ptr: GpuBuf?)
      requires Owns() && shadow.px != [] && Own(ptr)
      modifies this`deferred
      ensures var v := old(Abs()); Abs() == v.(deferred := S.Pixels(v.canvas.shadow.value))
      ensures Owns()
    {
      deferred := Deferral(PixelFrame, shadow.px, shadow.w, shadow.h, ptr);
    }

    method KeepShown()
      requires Valid()
      modifies this
      ensures Abs() == S.KeepShown(old(Abs()))
      ensures Valid()
    {
      if !link.visible && deferred.kind == NoFrame {
        if lastSentShm && shadow.px != [] {
          DeferShadow(deferred.ptr);
        } else if lastAcked.buffer != null {
          DeferGpu(lastAcked.buffer, lastAcked.w, lastAcked.h, deferred.pixels, recorded.lastAcked);
        }
      }
    }

    method Rebase()
      requires Valid()
      modifies this
      ensures Abs() == S.Rebase(old(Abs()))
      ensures Valid()
    {
      baselineValid := lastSentShm && link.visible;
      if link.visible && !pace.dropped && deferred.kind == NoFrame {
        pace := pace.(needsFull := false);
      }
    }

    method CountReject(code: AckCode)
      requires Valid()
      modifies this
      ensures Abs() == S.CountReject(old(Abs()), code)
      ensures Valid()
    {
      if code == Rejected && mode.useDma && !mode.dmaFailed {
        mode := mode.(rejects := mode.rejects + 1);
        if mode.rejects >= S.REJECT_LIMIT {
          mode := mode.(dmaFailed := true);
        }
      }
    }

    method DropBaseline()
      requires Owns()
      modifies this
      ensures var v := old(Abs());
              Abs() == v.(canvas := v.canvas.(baselineValid := false),
                          pace := v.pace.(needsFull := true, counter := None))
      ensures Owns()
    {
      baselineValid := false;
      pace := pace.(needsFull := true, counter := None);
    }

    method KeepRefused(readOk: bool)
      requires Valid()
      modifies this
      ensures Abs() == S.KeepRefused(old(Abs()), readOk)
      ensures Valid()
    {
      if lastSentShm && deferred.kind == NoFrame && shadow.px != [] {
        DeferShadow(null);
      } else if inflight.buffer != null && deferred.kind == NoFrame {
        KeepInflight(readOk);
      }
    }

    method KeepInflight(readOk: bool)
      requires Valid() && inflight.buffer != null
      modifies this
      ensures Abs() == S.Defer(old(Abs()), S.Refused(old(Abs()), readOk))
      ensures Valid()
    {
      var pixels := None;
      if mode.dmaFailed {
        pixels := inflight.buffer.Read(readOk);
      }
      if pixels.Some? {
        DeferPixels(pixels.value, inflight.w, inflight.h);
      } else {
        DeferGpu(inflight.buffer, inflight.w, inflight.h, deferred.pixels, recorded.inflight);
      }
    }

    method Refuse(code: AckCode, readOk: bool)
      requires Valid()
      modifies this
      ensures Abs() == S.Refuse(old(Abs()), code, readOk)
      ensures Valid()
    {
      CountReject(code);
      DropBaseline();
      KeepRefused(readOk);
    }

    method Accept()
      requires Valid()
      modifies this
      ensures Abs() == S.Accept(old(Abs()))
      ensures Valid()
    {
      MarkAccepted();
      KeepShown();
      Rebase();
    }

    method ProcessAck(ack: AckMsg, readOk: bool)
      requires Valid()
      modifies this
      ensures Abs() == S.ProcessAck(old(Abs()), ack, readOk)
      ensures Valid()
    {
      if ack.code == Accepted {
        Accept();
      } else {
        Refuse(ack.code, readOk);
      }
      FinishAck(ack);
    }

    method FinishAck(ack: AckMsg)
      requires Valid()
      modifies this
      ensures Abs() == S.FinishAck(old(Abs()), ack)
      ensures Valid()
    {
      Settle();
      if ack.w > 0 && ack.h > 0 && (ack.w != mode.renderW || ack.h != mode.renderH) {
        Resize(ack);
      }
    }

    method Settle()
      requires Owns()
      modifies this
      ensures var v := old(Abs());
              Abs() == v.(gpu := v.gpu.(inflight := None), pace := v.pace.(pending := false),
                          hist := v.hist.(acks := v.hist.acks + 1))
      ensures Owns()
    {
      inflight := inflight.(buffer := null);
      pace := pace.(pending := false);
      hist := hist.(acks := hist.acks + 1);
    }

    /** Everything tied to the old size is dropped. */
    method Resize(ack: AckMsg)
      requires Valid()
      modifies this
      ensures Abs() == S.Resized(old(Abs()), ack)
      ensures Valid()
    {
      mode := mode.(renderW := ack.w, renderH := ack.h, dmaFailed := false, rejects := 0);
      pace := pace.(needsFull := true, counter := None);
      Forget(Deferral(NoFrame, [], deferred.w, deferred.h, null));
      Remember(hist.(latest := None, kept := true));
    }

    /** No snapshot, no baseline, no acknowledged buffer any more. */
    method Forget(d: Deferral)
      requires Owns() && d.kind == NoFrame && Own(d.ptr)
      modifies this`deferred, this`baselineValid, this`shadow, this`lastAcked
      ensures var v := old(Abs());
              Abs() == v.(deferred := S.Nothing, canvas := v.canvas.(baselineValid := false, shadow := None),
                          gpu := v.gpu.(lastAcked := None))
      ensures Owns()
    {
      deferred := d;
      baselineValid := false;
      shadow := shadow.(px := []);
      lastAcked := lastAcked.(buffer := null);
    }

    /** The receive loop; no more than 256 answers and none after a SHUTDOWN. */
    method Receive(answers: seq<Request>) returns (requested: bool, stop: bool)
      ensures var taken := S.Consumed(answers, S.POLL_LIMIT);
              (stop <==> Shutdown in taken) && (!stop ==> (requested <==> S.CountNextFrames(taken) > 0))
    {
      requested := false;
      var i := 0;
      while i < S.POLL_LIMIT && i < |answers|
        invariant i <= S.POLL_LIMIT && i <= |answers|
        invariant Shutdown !in answers[..i]
        invariant requested <==> S.CountNextFrames(answers[..i]) > 0
      {
        S.ConsumedSteps(answers, S.POLL_LIMIT, i);
        if answers[i] == Shutdown {
          return requested, true;
        }
        if answers[i] == NextFrame {
          requested := true;
        }
        S.CountSplits(answers[..i], [answers[i]]);
        assert answers[..i + 1] == answers[..i] + [answers[i]];
        i := i + 1;
      }
      S.ConsumedSteps(answers, S.POLL_LIMIT, i);
      assert S.Consumed(answers, S.POLL_LIMIT) == answers[..i];
      return requested, false;
    }

    /** A turn of the poll: ack is what the transport answers if a frame is in
        flight, answers what successive receives would return. */
    method PollSocket(ack: Option<AckMsg>, answers: seq<Request>, up: bool, env: S.Env)
      requires Valid()
      modifies this
      ensures Abs() == S.PollSocket(old(Abs()), ack, S.Consumed(answers, S.POLL_LIMIT), up, env)
      ensures Valid() && (old(Facts(Abs())) ==> Facts(Abs()))
    {
      if Facts(Abs()) {
        PollSocketKeeps(Abs(), ack, S.Consumed(answers, S.POLL_LIMIT), up, env);
      }
      if link.connected {
        Exchange(ack, answers, up, env);
      }
    }

    /** The turn of a connected view. */
    method Exchange(ack: Option<AckMsg>, answers: seq<Request>, up: bool, env: S.Env)
      requires Valid() && link.connected
      modifies this
      ensures Abs() == S.PollSocket(old(Abs()), ack, S.Consumed(answers, S.POLL_LIMIT), up, env)
      ensures Valid()
    {
      TakeAck(ack, env.readOk);
      var requested, stop := Receive(answers);
      Grant(requested, stop, up, S.CountNextFrames(S.Consumed(answers, S.POLL_LIMIT)));
      if !stop && up && link.visible && !pace.pending && pace.credit && link.pageReady {
        MaybeSendDeferred(env);
      }
    }

    method TakeAck(ack: Option<AckMsg>, readOk: bool)
      requires Valid()
      modifies this
      ensures Abs() == S.TakeAck(old(Abs()), ack, readOk)
      ensures Valid()
    {
      if pace.pending && ack.Some? {
        ProcessAck(ack.value, readOk);
      }
    }

    method Grant(requested: bool, stop: bool, up: bool, ghost nexts: nat)
      requires Valid() && (!stop ==> (requested <==> nexts > 0))
      modifies this
      ensures Abs() == S.Granted(old(Abs()), nexts, stop, up)
      ensures Valid()
    {
      hist := hist.(requests := hist.requests + nexts);
      if stop {
        link := link.(quit := true);
      } else if up && link.visible && requested {
        pace := pace.(credit := true);
      }
    }

    method KeepHidden()
      requires Valid()
      modifies this
      ensures Abs() == S.KeepHidden(old(Abs()))
      ensures Valid()
    {
      if deferred.kind == NoFrame {
        if pace.pending && inflight.buffer != null {
          DeferGpu(inflight.buffer, inflight.w, inflight.h, deferred.pixels, recorded.inflight);
        } else if shadow.px != [] && lastSentShm {
          DeferShadow(null);
        } else if lastAcked.buffer != null {
          DeferGpu(lastAcked.buffer, lastAcked.w, lastAcked.h, deferred.pixels, recorded.lastAcked);
        }
      }
    }

    method SetOverlayVisible(v: bool)
      requires Valid()
      modifies this
      ensures Abs() == S.SetOverlayVisible(old(Abs()), v)
      ensures Valid() && (old(Facts(Abs())) ==> Facts(Abs()))
    {
      if Facts(Abs()) {
        SetOverlayVisibleKeeps(Abs(), v);
      }
      if link.visible == v {
        return;
      }
      Show(v);
      if !v {
        KeepHidden();
      }
      DropBaseline();
    }

    method Show(v: bool)
      requires Owns()
      modifies this
      ensures Abs() == old(Abs()).(link := old(link).(visible := v), pace := old(pace).(credit := false))
      ensures Owns()
    {
      link := link.(visible := v);
      pace := pace.(credit := false);
    }

    /** What both ways of connecting set. */
    method Connect()
      requires Valid() && !link.connected
      modifies this
      ensures Abs() == S.Connect(old(Abs()))
      ensures Valid()
    {
      link := link.(connected := true);
      Forget(deferred.(kind := NoFrame));
      inflight := inflight.(buffer := null);
      pace := pace.(needsFull := true, counter := None);
      Remember(hist.(latest := None, kept := true, spared := true, wire := [], acks := 0, requests := 0));
    }

    method Disconnect()
      requires Valid()
      modifies this
      ensures Abs() == S.Disconnect(old(Abs()))
      ensures Valid()
    {
      link := link.(connected := false);
      Forget(deferred.(kind := NoFrame, pixels := []));
      inflight := inflight.(buffer := null);
      pace := pace.(pending := false, credit := false);
      Remember(hist.(latest := None, kept := true));
    }

    method ConnectTask(up: bool, inited: bool)
      requires Valid()
      modifies this
      ensures Abs() == S.ConnectTask(old(Abs()), up, inited)
      ensures Valid() && (old(Facts(Abs())) ==> Facts(Abs()))
    {
      if Facts(Abs()) {
        ConnectTaskKeeps(Abs(), up, inited);
      }
      if up && !link.connected {
        Connect();
      } else if !up && link.connected {
        Disconnect();
      } else if !up && !link.connected && inited {
        Connect();
      }
    }

    /** Whether the page is asked for a frame right away. */
    method OnLoadEnd(isMain: bool, isBlank: bool) returns (nudged: bool)
      requires Valid()
      modifies this
      ensures Abs() == S.OnLoadEnd(old(Abs()), isMain, isBlank)
      ensures nudged <==> isMain && !isBlank && !old(link.pageReady) && pace.credit
                          && link.connected && link.visible && !pace.pending
      ensures Valid() && (old(Facts(Abs())) ==> Facts(Abs()))
    {
      if Facts(Abs()) {
        OnLoadEndKeeps(Abs(), isMain, isBlank);
      }
      if !isMain || isBlank || link.pageReady {
        return false;
      }
      link := link.(pageReady := true);
      nudged := pace.credit && link.connected && link.visible && !pace.pending;
    }
  }
}
