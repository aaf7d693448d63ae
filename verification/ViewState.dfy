/** The producer's view as a value, and each of its callbacks as a function on
    that value. The class in View.dfy runs the same callbacks in place. */
module ViewState {
  import opened Bytes
  import opened Raster
  import opened ShmDelta
  import opened ShmFormat
  import opened ShmDiff
  import opened DirtyRoi
  import opened Staging
  import opened GpuBuf
  import opened ControlWire

  const REJECT_LIMIT: nat := 5
  const POLL_LIMIT: nat := 256

  /** The two staging buffers, gpu_ and deferred_gpu_. */
  datatype BufName = Main | Spare

  /** A picture in wire order: bottom-left RGBA rows. */
  datatype Image = Image(w: nat, h: nat, px: seq<byte>) {
    predicate Valid() {
      0 < w < INT_LIMIT && 0 < h < INT_LIMIT && |px| == w * h * 4
    }
  }

  const NO_IMAGE: Image := Image(0, 0, [])

  /** A pointer to a staging buffer, with the size kept beside the pointer and,
      for the proof, the pixels the buffer had when the pointer was recorded. */
  datatype Held = Held(b: BufName, image: Image)

  /** The snapshot kept for a later send. */
  datatype Snapshot = Nothing | Pixels(image: Image) | Buffer(held: Held)

  datatype Buffers = Buffers(main: Staged, spare: Staged) {
    function At(b: BufName): Staged {
      if b == Main then main else spare
    }

    function With(b: BufName, s: Staged): (r: Buffers)
      ensures r.At(b) == s
      ensures forall c | c != b :: r.At(c) == At(c)
    {
      if b == Main then this.(main := s) else this.(spare := s)
    }
  }

  /** What one frame carries to the consumer. A staged frame names the buffer
      object it shares; a forwarded one is CEF's own pooled buffer. */
  datatype Frame =
    | ShmFull(w: nat, h: nat, px: seq<byte>)
    | ShmRect(w: nat, h: nat, packet: seq<byte>)
    | DmaStaged(w: nat, h: nat, bufId: nat, buffer: BufName, serial: nat)
    | DmaForwarded(w: nat, h: nat)

  /** Proof-only companions of the state.
      latest: the newest paint delivered on this connection since the last resize;
      kept: that paint was stored or sent whole, and since then the game has not
      written over the one buffer that holds it;
      sentImg, acceptedImg: the pictures that the last frame sent and the last
      frame accepted stand for;
      captureImg: what the main staging buffer held when the last paint was sent
      from its own accelerated callback; based: that paint went out staged;
      spared: on this connection the game has not changed the pixels of a buffer
      that a pointer named;
      wire, acks, requests: frames sent, ACKs and NEXT_FRAMEs received on it. */
  datatype History = History(latest: Option<Image>, kept: bool, sentImg: Image, acceptedImg: Image,
                             captureImg: Image, based: bool, spared: bool, wire: seq<Frame>, acks: nat, requests: nat)

  /** Connection, visibility, and the two one-way flags. */
  datatype Link = Link(connected: bool, visible: bool, pageReady: bool, quit: bool)

  /** What decides when the next frame goes out and whether it must be full. */
  datatype Pace = Pace(pending: bool, credit: bool, needsFull: bool, dropped: bool, counter: Option<nat>)

  datatype Mode = Mode(useDma: bool, dmaFailed: bool, rejects: nat, renderW: int, renderH: int, roiEnabled: bool)

  /** The staging buffers and the pointers to them. */
  datatype Gpu = Gpu(bufs: Buffers, inflight: Option<Held>, lastAcked: Option<Held>)

  /** The snapshot of the canvas sent through shared memory. */
  datatype Canvas = Canvas(baselineValid: bool, lastSentShm: bool, shadow: Option<Image>)

  datatype ViewState = ViewState(link: Link, pace: Pace, mode: Mode, deferred: Snapshot, gpu: Gpu, canvas: Canvas,
                                 hist: History)
  {
    predicate OnDma() { mode.useDma && !mode.dmaFailed }
  }

  /** The size beside a pointer is the size of whatever the buffer holds. */
  predicate HeldFits(bufs: Buffers, held: Held) {
    0 < held.image.w < INT_LIMIT && 0 < held.image.h < INT_LIMIT && SizeIs(bufs.At(held.b), held.image.w, held.image.h)
  }

  predicate SizeIs(s: Staged, w: nat, h: nat) {
    s.initialized ==> s.w == w && s.h == h
  }

  predicate SomeFits(bufs: Buffers, held: Option<Held>) {
    held.Some? ==> HeldFits(bufs, held.value)
  }

  predicate SnapshotFits(bufs: Buffers, s: Snapshot) {
    match s
    case Nothing => true
    case Pixels(image) => image.Valid()
    case Buffer(held) => HeldFits(bufs, held)
  }

  predicate FlightFits(connected: bool, pending: bool, lastSentShm: bool, inflight: Option<Held>) {
    (pending ==> connected) && (inflight.Some? ==> pending && !lastSentShm)
  }

  predicate ShadowFits(shadow: Option<Image>) {
    shadow.Some? ==> shadow.value.Valid()
  }

  /** The invariant every callback keeps, whatever the system answers. */
  predicate Fits(v: ViewState) {
    && v.gpu.bufs.main.Valid() && v.gpu.bufs.spare.Valid()
    && FlightFits(v.link.connected, v.pace.pending, v.canvas.lastSentShm, v.gpu.inflight)
    && SnapshotFits(v.gpu.bufs, v.deferred)
    && SomeFits(v.gpu.bufs, v.gpu.inflight)
    && SomeFits(v.gpu.bufs, v.gpu.lastAcked)
    && ShadowFits(v.canvas.shadow)
  }

  /** A callback's buffer of accelerated paint. The texture is the driver's view
      of it, and for linear buffers agrees with the mapped plane. */
  datatype Accelerated = Accelerated(
    planes: int, plane: seq<byte>, stride: nat, channels: Channels, modifier: nat, texture: seq<byte>,
    w: int, h: int, visibleX: int, visibleY: int, codedW: int, codedH: int,
    counter: Option<nat>, hasUpdateRect: bool, updateW: int, updateH: int)
  {
    predicate Valid() {
      && w < INT_LIMIT && h < INT_LIMIT && (counter.Some? ==> counter.value < U64_LIMIT)
      && (w > 0 && h > 0 ==> |texture| == w * h * 4)
      && (w > 0 && h > 0 && modifier == 0 && SourceFits(plane, stride, w, h) ==>
            texture == Texture(plane, stride, w, h, channels))
    }

    predicate Sized() { w > 0 && h > 0 }

    function Picture(): (p: Image)
      requires Valid() && Sized()
      ensures p.Valid()
    {
      Image(w, h, Flip(texture, w, h))
    }
  }

  /** What the system answers during one callback: does a send go through (memory
      file, mapping, descriptor and socket together), does a buffer map, does
      reading staged pixels back work, how the staging blit ends. */
  datatype Env = Env(sendOk: bool, mapOk: bool, readOk: bool, blit: BlitEnv)

  // ----- Sending -----

  /** The rectangle SendShmPixels transmits; None for the full canvas. */
  function SentRoi(v: ViewState, w: int, h: int, dirty: Option<seq<DirtyRect>>, verified: Option<Delta>)
    : Option<Delta>
  {
    if !v.mode.roiEnabled || !v.canvas.baselineValid then None
    else if verified.Some? && w > 0 && h > 0
            && Validate(verified, w, h, verified.value.Length())
      then verified
    else if !v.pace.needsFull && dirty.Some? then ChosenRoi(dirty.value, w, h)
    else None
  }

  lemma SentRoiFits(v: ViewState, w: int, h: int, dirty: Option<seq<DirtyRect>>, verified: Option<Delta>)
    requires w < INT_LIMIT && h < INT_LIMIT
    requires verified.Some? ==> verified.value.Fields32()
    requires SentRoi(v, w, h, dirty, verified).Some?
    ensures var d := SentRoi(v, w, h, dirty, verified).value;
            w > 0 && h > 0 && d.Fields32() && d.magic == DELTA_MAGIC && Inside(d.Area(), w, h)
  {
    if verified.Some? && w > 0 && h > 0 && Validate(verified, w, h, verified.value.Length()) {
      ValidateInside(verified.value, w, h, verified.value.Length());
    } else {
      ChosenRoiValidates(dirty.value, w, h);
    }
  }

  /** The canvas snapshot after a send: the rectangle patched into a snapshot of
      the same size, or else the new pixels. */
  function NewShadow(shadow: Option<Image>, next: Image, roi: Option<Delta>): (s: Image)
    requires next.Valid() && ShadowFits(shadow)
    ensures s.Valid() && s.w == next.w && s.h == next.h
  {
    if roi.Some? && shadow.Some? && shadow.value.w == next.w && shadow.value.h == next.h
    then next.(px := Patch(shadow.value.px, next.w, roi.value.Area(), next.px))
    else next
  }

  function ShmFrame(next: Image, roi: Option<Delta>): Frame
    requires next.Valid()
    requires roi.Some? ==> roi.value.Fields32() && Inside(roi.value.Area(), next.w, next.h)
  {
    if roi.Some? then ShmRect(next.w, next.h, Packet(next.px, next.w, next.h, roi.value))
    else ShmFull(next.w, next.h, next.px)
  }

  function Wired(hist: History, f: Frame, sent: Image): History {
    hist.(sentImg := sent, wire := hist.wire + [f])
  }

  function SendShmPixels(v: ViewState, next: Image, dirty: Option<seq<DirtyRect>>, verified: Option<Delta>,
                         sendOk: bool)
    : (r: ViewState)
    requires Fits(v) && v.link.connected && v.gpu.inflight == None && next.Valid()
    requires verified.Some? ==> verified.value.Fields32()
    ensures Fits(r)
  {
    if !sendOk then v
    else
      var roi := SentRoi(v, next.w, next.h, dirty, verified);
      if roi.Some? then SentRoiFits(v, next.w, next.h, dirty, verified); Sent(v, next, roi)
      else Sent(v, next, None)
  }

  /** The state after a shared-memory frame went out. */
  function Sent(v: ViewState, next: Image, roi: Option<Delta>): (r: ViewState)
    requires Fits(v) && v.link.connected && v.gpu.inflight == None && next.Valid()
    requires roi.Some? ==> roi.value.Fields32() && Inside(roi.value.Area(), next.w, next.h)
    ensures Fits(r)
  {
    MarkShmSent(Redrawn(v, next, roi), ShmFrame(next, roi))
  }

  function Redrawn(v: ViewState, next: Image, roi: Option<Delta>): (r: ViewState)
    requires Fits(v) && next.Valid()
    ensures Fits(r)
  {
    v.(canvas := v.canvas.(shadow := Some(NewShadow(v.canvas.shadow, next, roi))))
  }

  function MarkShmSent(v: ViewState, frame: Frame): (r: ViewState)
    requires Fits(v) && v.link.connected && v.gpu.inflight == None && v.canvas.shadow.Some?
    ensures Fits(r)
  {
    v.(pace := v.pace.(pending := true, credit := false), canvas := v.canvas.(lastSentShm := true),
       hist := Wired(v.hist, frame, v.canvas.shadow.value))
  }

  function StagedFrame(bufs: Buffers, b: BufName, w: nat, h: nat): Frame {
    DmaStaged(w, h, bufs.At(b).generation, b, bufs.At(b).serial)
  }

  /** The state after a staging buffer went out: from now on its pixels are the
      frame in flight. */
  function SentGpu(v: ViewState, b: BufName, w: nat, h: nat): (r: ViewState)
    requires Fits(v) && v.link.connected && HeldFits(v.gpu.bufs, Held(b, Image(w, h, v.gpu.bufs.At(b).image)))
    ensures Fits(r)
  {
    Launched(v, Held(b, Image(w, h, v.gpu.bufs.At(b).image)), StagedFrame(v.gpu.bufs, b, w, h))
  }

  function Launched(v: ViewState, held: Held, frame: Frame): (r: ViewState)
    requires Fits(v) && v.link.connected && HeldFits(v.gpu.bufs, held)
    ensures Fits(r)
  {
    v.(pace := v.pace.(pending := true), canvas := v.canvas.(lastSentShm := false),
       gpu := v.gpu.(inflight := Some(held)), hist := Wired(v.hist, frame, held.image))
  }

  // ----- The deferred snapshot -----

  /** The newest paint could not be kept or sent. */
  function Lost(v: ViewState): (r: ViewState)
    ensures Fits(v) ==> Fits(r)
  {
    v.(hist := v.hist.(kept := false))
  }

  function CacheDeferredPixels(v: ViewState, image: Image): (r: ViewState)
    requires Fits(v) && image.Valid()
    ensures Fits(r)
  {
    v.(deferred := Pixels(image), pace := v.pace.(counter := None), hist := Stored(v.hist, image))
  }

  function Stored(hist: History, image: Image): History {
    hist.(kept := hist.latest == Some(image))
  }

  /** The staging buffer no in-flight frame refers to. */
  function Target(v: ViewState): (b: BufName)
    ensures v.gpu.inflight.Some? ==> v.gpu.inflight.value.b != b
  {
    if v.gpu.inflight.Some? && v.gpu.inflight.value.b == Main then Spare else Main
  }

  /** A buffer about to be written no longer holds the acknowledged picture. */
  function ForgetAcked(v: ViewState, b: BufName): (r: ViewState)
    requires Fits(v)
    ensures Fits(r) && (r.gpu.lastAcked.Some? ==> r.gpu.lastAcked.value.b != b)
  {
    v.(gpu := v.gpu.(lastAcked := Unless(v.gpu.lastAcked, b)))
  }

  function Unless(held: Option<Held>, b: BufName): Option<Held> {
    if held.Some? && held.value.b == b then None else held
  }

  function Restaged(v: ViewState, b: BufName, s: Staged): (r: ViewState)
    requires Fits(v) && s.Valid()
    requires v.gpu.inflight.Some? ==> v.gpu.inflight.value.b != b
    requires v.gpu.lastAcked.Some? ==> v.gpu.lastAcked.value.b != b
    ensures SnapshotFits(r.gpu.bufs, r.deferred) ==> Fits(r)
    ensures Fits(r.(deferred := Nothing))
  {
    v.(gpu := v.gpu.(bufs := v.gpu.bufs.With(b, s)))
  }

  function BlitOf(s: Staged, info: Accelerated, dirty: seq<DirtyRect>, full: bool, env: BlitEnv): (Staged, bool)
    requires s.Valid() && info.Valid() && info.Sized()
  {
    BlitAndExport(s, info.planes, info.texture, info.w, info.h, dirty, full, env)
  }

  /** An unsuccessful blit leaves a buffer of another size only uninitialised. */
  lemma StagedSize(s: Staged, info: Accelerated, dirty: seq<DirtyRect>, full: bool, env: BlitEnv, w: nat, h: nat)
    requires s.Valid() && info.Valid() && info.Sized()
    ensures var r := BlitOf(s, info, dirty, full, env);
            r.0.Valid() && if r.1 then SizeIs(r.0, info.w, info.h) else SizeIs(s, w, h) ==> SizeIs(r.0, w, h)
  {
  }

  /** One staging blit into the target buffer. */
  function StageInto(v: ViewState, info: Accelerated, dirty: seq<DirtyRect>, full: bool, env: BlitEnv)
    : (r: (ViewState, bool))
    requires Fits(v) && info.Valid() && info.Sized()
    ensures v.deferred == Nothing || !r.1 ==> Fits(r.0)
    ensures Fits(r.0.(deferred := Nothing))
    ensures r.1 ==> SizeIs(r.0.gpu.bufs.At(Target(v)), info.w, info.h)
    ensures r.0 == v.(gpu := v.gpu.(bufs := r.0.gpu.bufs, lastAcked := r.0.gpu.lastAcked))
    ensures v.gpu.inflight.Some? ==> r.0.gpu.bufs.At(v.gpu.inflight.value.b) == v.gpu.bufs.At(v.gpu.inflight.value.b)
  {
    var b := Target(v);
    var r := BlitOf(v.gpu.bufs.At(b), info, dirty, full, env);
    StagedKeeps(v, b, info, dirty, full, env);
    (Restaged(ForgetAcked(v, b), b, r.0), r.1)
  }

  lemma StagedKeeps(v: ViewState, b: BufName, info: Accelerated, dirty: seq<DirtyRect>, full: bool, env: BlitEnv)
    requires Fits(v) && info.Valid() && info.Sized()
    ensures var r := BlitOf(v.gpu.bufs.At(b), info, dirty, full, env);
            && r.0.Valid() && (r.1 ==> SizeIs(r.0, info.w, info.h))
            && (!r.1 ==> SnapshotFits(v.gpu.bufs.With(b, r.0), v.deferred))
  {
    var image := if v.deferred.Buffer? then v.deferred.held.image else NO_IMAGE;
    StagedSize(v.gpu.bufs.At(b), info, dirty, full, env, image.w, image.h);
  }

  predicate PlaneReadable(info: Accelerated) {
    info.planes >= 1 && info.Sized() && info.w * 4 <= info.stride && info.stride * info.h <= |info.plane|
  }

  /** Can the paint be copied through a mapping of its one linear plane? */
  predicate Mappable(info: Accelerated, mapOk: bool) {
    PlaneReadable(info) && info.modifier == 0 && info.w * info.h * 4 <= PIXEL_BYTES_LIMIT && mapOk
  }

  function Mapped(info: Accelerated): (p: Image)
    requires info.Valid() && PlaneReadable(info)
    ensures p.Valid()
  {
    Image(info.w, info.h, GlImage(info.plane, info.stride, info.w, info.h, info.channels))
  }

  function CacheDeferredGpu(v: ViewState, info: Accelerated, env: Env): (r: ViewState)
    requires Fits(v) && info.Valid()
    ensures Fits(r)
  {
    if !info.Sized() then Lost(v)
    else
      var r := StageInto(v, info, [], true, env.blit);
      if r.1 then DeferStaged(r.0, Target(v), info)
      else if Mappable(info, env.mapOk) then CacheDeferredPixels(r.0, Mapped(info))
      else Lost(r.0)
  }

  function DeferStaged(v: ViewState, b: BufName, info: Accelerated): (r: ViewState)
    requires info.Valid() && info.Sized()
    requires Fits(v.(deferred := Nothing)) && SizeIs(v.gpu.bufs.At(b), info.w, info.h)
    ensures Fits(r)
  {
    v.(deferred := Buffer(Held(b, info.Picture())), pace := v.pace.(counter := None),
       hist := Stored(v.hist, info.Picture()))
  }

  /** Reading a staged snapshot back into memory once dma-bufs are out of use. */
  function ReadBackDeferred(v: ViewState, readOk: bool): (r: ViewState)
    requires Fits(v)
    ensures Fits(r)
  {
    if v.deferred.Buffer? && !v.OnDma() && ReadPixels(v.gpu.bufs.At(v.deferred.held.b), readOk).Some? then
      var image := v.deferred.held.image;
      v.(deferred := Pixels(image.(px := ReadPixels(v.gpu.bufs.At(v.deferred.held.b), readOk).value)))
    else v
  }

  /** The deferred snapshot compared with the acknowledged canvas. */
  ghost function DeferredVerdict(v: ViewState): (r: (DeltaResult, Delta))
    requires v.deferred.Pixels? && Fits(v)
    ensures r.0 == Partial ==> r.1.Fields32()
  {
    var i := v.deferred.image;
    if v.mode.roiEnabled && v.canvas.baselineValid && v.canvas.shadow.Some?
       && v.canvas.shadow.value.w == i.w && v.canvas.shadow.value.h == i.h then
      Verdict(DiffPixels(i.px, v.canvas.shadow.value.px, i.w, i.h), i.w, i.h)
    else (Full, Delta(0, 0, 0, 0, 0))
  }

  /** Nothing changed: the snapshot is dropped and the canvas counts as current. */
  function SkipDeferred(v: ViewState): (r: ViewState)
    requires Fits(v)
    ensures Fits(r)
  {
    v.(deferred := Nothing, pace := v.pace.(credit := false, needsFull := false, dropped := false))
  }

  ghost function SendDeferredPixels(v: ViewState, sendOk: bool): (r: ViewState)
    requires v.deferred.Pixels? && Fits(v) && v.link.connected && !v.pace.pending
    ensures Fits(r)
  {
    var verdict := DeferredVerdict(v);
    if verdict.0 == Unchanged then SkipDeferred(v)
    else
      var u := SendShmPixels(v, v.deferred.image, None, if verdict.0 == Partial then Some(verdict.1) else None, sendOk);
      if u.pace.pending then AfterDeferred(u) else u
  }

  function AfterDeferred(v: ViewState): (r: ViewState)
    requires Fits(v)
    ensures Fits(r)
  {
    v.(deferred := Nothing, pace := v.pace.(credit := false, needsFull := true, dropped := false))
  }

  function SendDeferredGpu(v: ViewState, sendOk: bool): (r: ViewState)
    requires v.deferred.Buffer? && Fits(v) && v.link.connected && !v.pace.pending
    ensures Fits(r)
  {
    var held := v.deferred.held;
    if v.OnDma() && v.gpu.bufs.At(held.b).present && sendOk
    then AfterDeferred(SentGpu(v, held.b, held.image.w, held.image.h))
    else v
  }

  ghost function SendDeferred(v: ViewState, env: Env): (r: ViewState)
    requires Fits(v) && v.link.connected && !v.pace.pending
    ensures Fits(r)
  {
    match v.deferred
    case Nothing => v
    case Pixels(_) => SendDeferredPixels(v, env.sendOk)
    case Buffer(_) => SendDeferredGpu(v, env.sendOk)
  }

  ghost function MaybeSendDeferred(v: ViewState, env: Env): (r: ViewState)
    requires Fits(v)
    ensures Fits(r)
  {
    if !v.pace.credit || v.pace.pending || !v.link.connected || !v.link.visible || v.deferred == Nothing then v
    else SendDeferred(ReadBackDeferred(v, env.readOk), env)
  }

  // ----- Paint callbacks -----

  /** An honest dirty list: compared with the newest delivered paint of the same
      size, nothing changed outside it. */
  ghost predicate Honest(latest: Option<Image>, next: Image, dirty: seq<DirtyRect>) {
    latest.Some? && latest.value.w == next.w && latest.value.h == next.h ==>
      CanvasesAgree(latest.value.px, next.px, next.w, next.h, dirty)
  }

  predicate Busy(v: ViewState) {
    v.pace.pending || !v.pace.credit || v.deferred != Nothing
  }

  /** A newest paint is delivered. One that changes nothing is as kept as the
      one before it. */
  function WithLatest(v: ViewState, next: Image): (r: ViewState)
    ensures Fits(v) ==> Fits(r)
  {
    v.(hist := v.hist.(latest := Some(next), kept := v.hist.kept && v.hist.latest == Some(next)))
  }

  /** OnPaint: a view paint of BGRA pixels, rows top-left and tight. */
  ghost function OnPaint(v: ViewState, isView: bool, source: Option<seq<byte>>, w: int, h: int,
                         dirty: seq<DirtyRect>, env: Env): (r: ViewState)
    requires Fits(v) && w < INT_LIMIT && h < INT_LIMIT
    requires source.Some? && w > 0 && h > 0 ==> |source.value| == w * h * 4
    ensures Fits(r)
  {
    if !isView || source.None? || !v.link.connected || !v.link.visible then v
    else if w <= 0 || h <= 0 || w * h * 4 > PIXEL_BYTES_LIMIT then Lost(v)
    else
      GlImageInvolution(source.value, w, h, BGRA);
      PaintPixels(v, Image(w, h, GlImage(source.value, w * 4, w, h, BGRA)), dirty, env)
  }

  /** Does sending this paint directly, through shared memory, make the canvas
      snapshot the paint? A full frame does; a rectangle chosen from the dirty
      list does if the list is honest and the paint before was kept. */
  ghost predicate SentWhole(v: ViewState, next: Image, dirty: seq<DirtyRect>) {
    SentRoi(v, next.w, next.h, Some(dirty), None) == None || (v.hist.kept && Honest(v.hist.latest, next, dirty))
  }

  ghost function PaintPixels(v: ViewState, next: Image, dirty: seq<DirtyRect>, env: Env): (r: ViewState)
    requires Fits(v) && v.link.connected && next.Valid()
    ensures Fits(r)
  {
    var l := WithLatest(v, next);
    if Busy(v) then MaybeSendDeferred(MarkDropped(CacheDeferredPixels(l, next)), env)
    else DirectPixels(l, next, dirty, SentWhole(v, next, dirty), env.sendOk)
  }

  function MarkDropped(v: ViewState): (r: ViewState)
    requires Fits(v)
    ensures Fits(r)
  {
    v.(pace := v.pace.(dropped := true, needsFull := true, counter := None))
  }

  function DirectPixels(v: ViewState, next: Image, dirty: seq<DirtyRect>, whole: bool, sendOk: bool): (r: ViewState)
    requires Fits(v) && v.link.connected && !v.pace.pending && next.Valid()
    ensures Fits(r)
  {
    var u := SendShmPixels(v, next, Some(dirty), None, sendOk);
    if u.pace.pending then AfterPaint(u, whole) else u
  }

  function AfterPaint(v: ViewState, whole: bool): (r: ViewState)
    requires Fits(v)
    ensures Fits(r)
  {
    v.(pace := v.pace.(credit := false, needsFull := true, counter := None, dropped := false),
       hist := v.hist.(kept := whole))
  }

  /** The paint is the capture numbered next after the last one sent. */
  predicate Follows(counter: Option<nat>, info: Accelerated) {
    info.counter.Some? && counter.Some? && info.counter.value == U64(counter.value + 1)
  }

  /** The conditions under which a dirty-only blit is asked for. */
  predicate CanBlitDirty(v: ViewState, info: Accelerated) {
    && !v.pace.needsFull && Follows(v.pace.counter, info)
    && info.hasUpdateRect && info.visibleX == 0 && info.visibleY == 0
    && info.codedW == info.w && info.codedH == info.h
  }

  function SendFrameDmaBuf(v: ViewState, info: Accelerated, dirty: seq<DirtyRect>, full: bool, env: Env): (r: ViewState)
    requires Fits(v) && v.link.connected && !v.pace.pending && v.deferred == Nothing && info.Valid()
    ensures Fits(r)
  {
    if !info.Sized() then v
    else
      var r := StageInto(v, info, dirty, full, env.blit);
      SendStaged(r.0, r.1, Target(v), info, env.sendOk)
  }

  function SendStaged(v: ViewState, staged: bool, b: BufName, info: Accelerated, sendOk: bool): (r: ViewState)
    requires Fits(v) && v.link.connected && !v.pace.pending && info.Valid() && info.Sized()
    requires staged ==> SizeIs(v.gpu.bufs.At(b), info.w, info.h)
    ensures Fits(r)
  {
    if !sendOk then v
    else if staged then SentGpu(v, b, info.w, info.h)
    else if 1 <= info.planes <= 4 then Forwarded(v, info.w, info.h)
    else v
  }

  /** CEF's own buffer went out instead of a staged copy. */
  function Forwarded(v: ViewState, w: nat, h: nat): (r: ViewState)
    requires Fits(v) && v.link.connected && !v.pace.pending
    ensures Fits(r)
  {
    v.(pace := v.pace.(pending := true), canvas := v.canvas.(lastSentShm := false),
       hist := Wired(v.hist, DmaForwarded(w, h), NO_IMAGE))
  }

  function SendShmFromDmaBuf(v: ViewState, info: Accelerated, dirty: seq<DirtyRect>, env: Env): (r: ViewState)
    requires Fits(v) && v.link.connected && !v.pace.pending && info.Valid()
    ensures Fits(r)
  {
    if Mappable(info, env.mapOk) then SendShmPixels(v, Mapped(info), Some(dirty), None, env.sendOk) else v
  }

  /** The same for a direct accelerated paint. Through a staging buffer, a full
      blit makes it whole; a partial one does if the buffer still holds what was
      staged for the last capture and the list covers the changes since then. */
  ghost predicate CaptureWhole(v: ViewState, info: Accelerated, dirty: seq<DirtyRect>, env: Env)
    requires Fits(v) && info.Valid()
  {
    && info.Sized()
    && if v.OnDma() then
         && StageInto(v, info, dirty, !CanBlitDirty(v, info), env.blit).1
         && (CanBlitDirty(v, info) ==>
               && v.hist.based && v.gpu.bufs.main.author == ByView
               && Honest(Some(v.hist.captureImg), info.Picture(), dirty))
       else SentWhole(v, info.Picture(), dirty)
  }

  function Captured(v: ViewState, info: Accelerated): (r: ViewState)
    requires Fits(v) && info.Valid()
    ensures Fits(r) && r == v.(hist := r.hist)
  {
    if info.Sized() then WithLatest(v, info.Picture()) else Lost(v)
  }

  ghost function OnAcceleratedPaint(v: ViewState, isView: bool, info: Accelerated, dirty: seq<DirtyRect>, env: Env)
    : (r: ViewState)
    requires Fits(v) && info.Valid()
    ensures Fits(r)
  {
    if !isView || !v.link.connected || !v.link.visible then v
    else
      var l := Captured(v, info);
      if Busy(v) then DeferCapture(l, info, env)
      else if !v.pace.needsFull && info.hasUpdateRect && (info.updateW <= 0 || info.updateH <= 0) then l
      else DirectCapture(l, info, dirty, CaptureWhole(v, info, dirty, env), env)
  }

  ghost function DeferCapture(v: ViewState, info: Accelerated, env: Env): (r: ViewState)
    requires Fits(v) && info.Valid()
    ensures Fits(r)
  {
    MaybeSendDeferred(MarkDropped(CacheDeferredGpu(v, info, env)), env)
  }

  function DirectCapture(v: ViewState, info: Accelerated, dirty: seq<DirtyRect>, whole: bool, env: Env): (r: ViewState)
    requires Fits(v) && v.link.connected && !v.pace.pending && v.deferred == Nothing && info.Valid()
    ensures Fits(r)
  {
    Finish(Transmit(v, info, dirty, !CanBlitDirty(v, info), env), info.counter, whole)
  }

  function Transmit(v: ViewState, info: Accelerated, dirty: seq<DirtyRect>, full: bool, env: Env): (r: ViewState)
    requires Fits(v) && v.link.connected && !v.pace.pending && v.deferred == Nothing && info.Valid()
    ensures Fits(r)
  {
    if v.OnDma() then SendFrameDmaBuf(v, info, dirty, full, env) else SendShmFromDmaBuf(v, info, dirty, env)
  }

  function Finish(v: ViewState, counter: Option<nat>, whole: bool): (r: ViewState)
    requires Fits(v)
    ensures Fits(r)
  {
    if v.pace.pending then AfterCapture(v, counter, whole) else Missed(v)
  }

  /** The capture was not sent; what its staging left behind is nobody's base. */
  function Missed(v: ViewState): (r: ViewState)
    requires Fits(v)
    ensures Fits(r)
  {
    v.(pace := v.pace.(needsFull := true), hist := v.hist.(kept := false, based := false))
  }

  function AfterCapture(v: ViewState, counter: Option<nat>, whole: bool): (r: ViewState)
    requires Fits(v)
    ensures Fits(r)
  {
    v.(pace := v.pace.(credit := false, needsFull := true, dropped := false, counter := counter),
       hist := NewCapture(v.hist, v.gpu.inflight, whole))
  }

  function NewCapture(hist: History, inflight: Option<Held>, whole: bool): History {
    hist.(kept := whole, based := inflight.Some?,
          captureImg := if inflight.Some? then inflight.value.image else NO_IMAGE)
  }

  // ----- Control -----

  /** The callback neither sends nor touches the connection or the visibility. */
  predicate SameLink(v: ViewState, r: ViewState) {
    r.link.connected == v.link.connected && r.link.visible == v.link.visible && r.hist.wire == v.hist.wire
  }

  /** Which snapshot a refused frame, or hiding, falls back on. */
  function Defer(v: ViewState, s: Snapshot): (r: ViewState)
    requires Fits(v) && SnapshotFits(v.gpu.bufs, s)
    ensures Fits(r) && SameLink(v, r)
  {
    v.(deferred := s)
  }

  /** After ACCEPTED: which staging buffer, if any, is now on screen. */
  function MarkAccepted(v: ViewState): (r: ViewState)
    requires Fits(v)
    ensures Fits(r) && SameLink(v, r)
  {
    var u := v.(hist := v.hist.(acceptedImg := v.hist.sentImg));
    if v.gpu.inflight.Some? then u.(gpu := u.gpu.(lastAcked := v.gpu.inflight))
    else if v.canvas.lastSentShm then u.(gpu := u.gpu.(lastAcked := None))
    else u
  }

  /** The snapshot a hidden view keeps so that it can be shown again. */
  function KeepShown(v: ViewState): (r: ViewState)
    requires Fits(v)
    ensures Fits(r) && SameLink(v, r)
  {
    if v.link.visible || v.deferred != Nothing then v
    else if v.canvas.lastSentShm && v.canvas.shadow.Some? then Defer(v, Pixels(v.canvas.shadow.value))
    else if v.gpu.lastAcked.Some? then Defer(v, Buffer(v.gpu.lastAcked.value))
    else v
  }

  predicate StillFull(v: ViewState) {
    v.pace.needsFull && !(v.link.visible && !v.pace.dropped && v.deferred == Nothing)
  }

  /** The canvas just accepted is the baseline of the next rectangle. */
  function Rebase(v: ViewState): (r: ViewState)
    requires Fits(v)
    ensures Fits(r) && SameLink(v, r)
  {
    v.(canvas := v.canvas.(baselineValid := v.canvas.lastSentShm && v.link.visible),
       pace := v.pace.(needsFull := StillFull(v)))
  }

  function Accept(v: ViewState): (r: ViewState)
    requires Fits(v)
    ensures Fits(r) && SameLink(v, r)
  {
    Rebase(KeepShown(MarkAccepted(v)))
  }

  /** REJECTED counts against the dma-buf path, DISCARDED does not. */
  function CountReject(v: ViewState, code: AckCode): (r: ViewState)
    requires Fits(v)
    ensures Fits(r) && SameLink(v, r)
  {
    if code == Rejected && v.OnDma()
    then v.(mode := v.mode.(rejects := v.mode.rejects + 1, dmaFailed := v.mode.rejects + 1 >= REJECT_LIMIT))
    else v
  }

  /** After either, full updates again. */
  function DropBaseline(v: ViewState): (r: ViewState)
    requires Fits(v)
    ensures Fits(r) && SameLink(v, r)
  {
    v.(canvas := v.canvas.(baselineValid := false), pace := v.pace.(needsFull := true, counter := None))
  }

  /** The refused frame becomes the deferred snapshot unless a newer one exists. */
  function KeepRefused(v: ViewState, readOk: bool): (r: ViewState)
    requires Fits(v)
    ensures Fits(r) && SameLink(v, r)
  {
    if v.deferred != Nothing then v
    else if v.canvas.lastSentShm && v.canvas.shadow.Some? then Defer(v, Pixels(v.canvas.shadow.value))
    else if v.gpu.inflight.Some? then Defer(v, Refused(v, readOk))
    else v
  }

  function Refused(v: ViewState, readOk: bool): (s: Snapshot)
    requires Fits(v) && v.gpu.inflight.Some?
    ensures SnapshotFits(v.gpu.bufs, s)
  {
    var held := v.gpu.inflight.value;
    var pixels := ReadPixels(v.gpu.bufs.At(held.b), readOk);
    if v.mode.dmaFailed && pixels.Some? then Pixels(held.image.(px := pixels.value)) else Buffer(held)
  }

  predicate Resizes(v: ViewState, ack: AckMsg) {
    ack.w > 0 && ack.h > 0 && (ack.w != v.mode.renderW || ack.h != v.mode.renderH)
  }

  /** A new size: everything tied to the old one is dropped. */
  function Resized(v: ViewState, ack: AckMsg): (r: ViewState)
    requires Fits(v)
    ensures Fits(r) && SameLink(v, r)
  {
    v.(mode := v.mode.(renderW := ack.w, renderH := ack.h, dmaFailed := false, rejects := 0),
       pace := v.pace.(needsFull := true, counter := None),
       canvas := v.canvas.(baselineValid := false, shadow := None), deferred := Nothing,
       gpu := v.gpu.(lastAcked := None), hist := v.hist.(latest := None, kept := true))
  }

  function Settled(v: ViewState): (r: ViewState)
    requires Fits(v)
    ensures Fits(r) && SameLink(v, r)
  {
    v.(gpu := v.gpu.(inflight := None), pace := v.pace.(pending := false), hist := v.hist.(acks := v.hist.acks + 1))
  }

  function ProcessAck(v: ViewState, ack: AckMsg, readOk: bool): (r: ViewState)
    requires Fits(v)
    ensures Fits(r) && SameLink(v, r)
  {
    FinishAck(if ack.code == Accepted then Accept(v) else Refuse(v, ack.code, readOk), ack)
  }

  function Refuse(v: ViewState, code: AckCode, readOk: bool): (r: ViewState)
    requires Fits(v)
    ensures Fits(r) && SameLink(v, r)
  {
    KeepRefused(DropBaseline(CountReject(v, code)), readOk)
  }

  function FinishAck(v: ViewState, ack: AckMsg): (r: ViewState)
    requires Fits(v)
    ensures Fits(r) && SameLink(v, r)
  {
    if Resizes(v, ack) then Resized(Settled(v), ack) else Settled(v)
  }

  /** What the receive loop takes of the answers it would get: at most so many,
      and nothing after a SHUTDOWN. */
  function Consumed(answers: seq<Request>, limit: nat): seq<Request>
    decreases |answers|
  {
    if limit == 0 || answers == [] then []
    else if answers[0] == Shutdown then [Shutdown]
    else [answers[0]] + Consumed(answers[1..], limit - 1)
  }

  lemma {:induction false} ConsumedSteps(answers: seq<Request>, limit: nat, i: nat)
    requires i <= |answers| && i <= limit && Shutdown !in answers[..i]
    ensures Consumed(answers, limit) == answers[..i] + Consumed(answers[i..], limit - i)
    decreases i
  {
    if i > 0 {
      assert answers[0] == answers[..i][0] && answers[1..][..i - 1] == answers[..i][1..];
      ConsumedSteps(answers[1..], limit - 1, i - 1);
      assert answers[1..][i - 1..] == answers[i..];
      assert answers[..i] == [answers[0]] + answers[1..][..i - 1];
    } else {
      assert answers[0..] == answers;
    }
  }

  lemma {:induction false} CountSplits(a: seq<Request>, b: seq<Request>)
    ensures CountNextFrames(a + b) == CountNextFrames(a) + CountNextFrames(b)
  {
    if a == [] {
      assert a + b == b;
    } else {
      CountSplits(a[1..], b);
      assert (a + b)[1..] == a[1..] + b;
    }
  }

  function CountNextFrames(reqs: seq<Request>): nat {
    if reqs == [] then 0 else (if reqs[0] == NextFrame then 1 else 0) + CountNextFrames(reqs[1..])
  }

  function TakeAck(v: ViewState, ack: Option<AckMsg>, readOk: bool): (r: ViewState)
    requires Fits(v)
    ensures Fits(r) && SameLink(v, r)
  {
    if v.pace.pending && ack.Some? then ProcessAck(v, ack.value, readOk) else v
  }

  /** After the requests were taken: quit at a SHUTDOWN, otherwise let a
      NEXT_FRAME grant credit while the view is up and visible. */
  function Granted(v: ViewState, nexts: nat, quit: bool, up: bool): (r: ViewState)
    requires Fits(v)
    ensures Fits(r) && SameLink(v, r)
  {
    v.(hist := v.hist.(requests := v.hist.requests + nexts), link := v.link.(quit := v.link.quit || quit),
       pace := v.pace.(credit := v.pace.credit || (!quit && up && v.link.visible && nexts > 0)))
  }

  function TakeRequests(v: ViewState, reqs: seq<Request>, up: bool): (r: ViewState)
    requires Fits(v)
    ensures Fits(r) && SameLink(v, r)
  {
    Granted(v, CountNextFrames(reqs), Shutdown in reqs, up)
  }

  /** PollSocket once the transport has answered: an ACK if one was awaited and
      complete, then up to 256 requests ending at a SHUTDOWN if one came, and
      whether the transport is still up. */
  ghost function PollSocket(v: ViewState, ack: Option<AckMsg>, reqs: seq<Request>, up: bool, env: Env): (r: ViewState)
    requires Fits(v)
    ensures Fits(r)
  {
    if !v.link.connected then v
    else
      var c := TakeRequests(TakeAck(v, ack, env.readOk), reqs, up);
      if Shutdown !in reqs && up && c.link.visible && !c.pace.pending && c.pace.credit && c.link.pageReady
      then MaybeSendDeferred(c, env)
      else c
  }

  /** What hiding keeps for the next showing. */
  function KeepHidden(v: ViewState): (r: ViewState)
    requires Fits(v)
    ensures Fits(r) && SameLink(v, r)
  {
    if v.deferred != Nothing then v
    else if v.pace.pending && v.gpu.inflight.Some? then Defer(v, Buffer(v.gpu.inflight.value))
    else if v.canvas.lastSentShm && v.canvas.shadow.Some? then Defer(v, Pixels(v.canvas.shadow.value))
    else if v.gpu.lastAcked.Some? then Defer(v, Buffer(v.gpu.lastAcked.value))
    else v
  }

  function Shown(v: ViewState, visible: bool): (r: ViewState)
    requires Fits(v)
    ensures Fits(r)
  {
    v.(link := v.link.(visible := visible), pace := v.pace.(credit := false))
  }

  function SetOverlayVisible(v: ViewState, visible: bool): (r: ViewState)
    requires Fits(v)
    ensures Fits(r)
  {
    if v.link.visible == visible then v
    else
      var u := Shown(v, visible);
      DropBaseline(if visible then u else KeepHidden(u))
  }

  /** A connection is established. */
  function Connect(v: ViewState): (r: ViewState)
    requires Fits(v) && !v.link.connected
    ensures Fits(r)
  {
    v.(link := v.link.(connected := true), deferred := Nothing, gpu := v.gpu.(inflight := None, lastAcked := None),
       canvas := v.canvas.(shadow := None, baselineValid := false),
       pace := v.pace.(needsFull := true, counter := None),
       hist := v.hist.(latest := None, kept := true, spared := true, wire := [], acks := 0, requests := 0))
  }

  /** The connection is found gone. */
  function Disconnect(v: ViewState): (r: ViewState)
    requires Fits(v)
    ensures Fits(r)
  {
    v.(link := v.link.(connected := false), deferred := Nothing, gpu := v.gpu.(inflight := None, lastAcked := None),
       canvas := v.canvas.(shadow := None, baselineValid := false),
       pace := v.pace.(pending := false, credit := false), hist := v.hist.(latest := None, kept := true))
  }

  /** The once-a-second connection task; up says whether the transport is ready,
      inited whether a new connection could be made now. */
  function ConnectTask(v: ViewState, up: bool, inited: bool): (r: ViewState)
    requires Fits(v)
    ensures Fits(r)
  {
    if up && !v.link.connected then Connect(v)
    else if !up && v.link.connected then Disconnect(v)
    else if !up && inited then Connect(v)
    else v
  }

  /** The end of a page load: only the first real page of the main frame counts. */
  function OnLoadEnd(v: ViewState, isMain: bool, isBlank: bool): (r: ViewState)
    requires Fits(v)
    ensures Fits(r)
  {
    if !isMain || isBlank then v else v.(link := v.link.(pageReady := true))
  }

  function Start(useDma: bool, roiEnabled: bool, w: int, h: int): (r: ViewState)
    ensures Fits(r)
  {
    ViewState(Link(false, true, false, false), Pace(false, false, true, false, None),
              Mode(useDma, false, 0, w, h, roiEnabled), Nothing, Gpu(Buffers(FRESH, FRESH), None, None),
              Canvas(false, false, None), History(None, true, NO_IMAGE, NO_IMAGE, NO_IMAGE, false, true, [], 0, 0))
  }

  // ----- Uploads of the game -----

  predicate Points(held: Option<Held>, b: BufName) {
    held.Some? && held.value.b == b
  }

  /** Is this buffer the one place where the newest paint is? */
  predicate Relies(v: ViewState, b: BufName) {
    match v.deferred
    case Pixels(_) => false
    case Buffer(held) => held.b == b
    case Nothing =>
      !v.canvas.lastSentShm
      && Points(if v.pace.pending then v.gpu.inflight else v.gpu.lastAcked, b)
  }

  /** Does a pointer of the view name this buffer for what it holds? */
  predicate Names(v: ViewState, b: BufName) {
    || Points(v.gpu.inflight, b) || Points(v.gpu.lastAcked, b)
    || (v.deferred.Buffer? && v.deferred.held.b == b && v.gpu.bufs.At(b).initialized)
  }

  function Overpainted(bufs: Buffers, b: BufName, image: seq<byte>, author: Author): (r: Buffers)
    requires bufs.main.Valid() && bufs.spare.Valid() && |image| == |bufs.At(b).image|
    ensures r.main.Valid() && r.spare.Valid()
    ensures r == bufs.With(b, bufs.At(b).(image := image, author := author))
  {
    bufs.With(b, bufs.At(b).(image := image, author := author))
  }

  /** What the history says after an upload into this buffer. */
  function Disturbed(v: ViewState, b: BufName, same: bool): History {
    v.hist.(kept := v.hist.kept && (same || !Relies(v, b)), spared := v.hist.spared && (same || !Names(v, b)))
  }

  /** The game writes into a buffer object it shares: not a step of the view, but
      a change of what its buffer holds. */
  function Scribbled(v: ViewState, b: BufName, image: seq<byte>, author: Author): (r: ViewState)
    requires Fits(v) && |image| == |v.gpu.bufs.At(b).image|
    ensures Fits(r)
  {
    v.(gpu := v.gpu.(bufs := Overpainted(v.gpu.bufs, b, image, author)),
       hist := Disturbed(v, b, image == v.gpu.bufs.At(b).image))
  }
}
