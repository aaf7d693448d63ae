/** Runs that reach the states in which a promise of the pipeline ends, with
    pictures of two pixels. */
module Episodes {
  import opened Bytes
  import opened Raster
  import opened ShmDiff
  import opened ShmFormat
  import opened DirtyRoi
  import opened Staging
  import opened GpuBuf
  import opened ControlWire
  import opened ControlStream
  import opened ViewState
  import opened ViewFacts
  import opened ViewSends
  import opened Pipeline
  import opened PipelineFacts
  import opened PipelineRuns
  import opened Limits
  import S = Screen

  ghost predicate Reachable(s: System) {
    exists states, actions :: Run(states, actions) && states[|actions|] == s
  }

  lemma ReachStep(s: System, a: Action) returns (t: System)
    requires Reachable(s) && WellFormed(s) && Enabled(s, a)
    ensures t == Stepped(s, a) && Reachable(t) && WellFormed(t)
  {
    hide Stepped, WellFormed, Enabled;
    t := Stepped(s, a);
    var states, actions :| Run(states, actions) && states[|actions|] == s;
    RunExtends(states, actions, a);
    assert (states + [t])[|actions + [a]|] == t;
    IsWellFormed(states + [t], actions + [a]);
  }

  lemma IsWellFormed(states: seq<System>, actions: seq<Action>)
    requires Run(states, actions)
    ensures WellFormed(states[|actions|])
  {
    hide WellFormed, Stepped, Enabled;
    RunKeeps(states, actions, |actions|);
  }

  lemma RunExtends(states: seq<System>, actions: seq<Action>, a: Action)
    requires Run(states, actions) && WellFormed(states[|actions|]) && Enabled(states[|actions|], a)
    ensures Run(states + [Stepped(states[|actions|], a)], actions + [a])
  {
    hide WellFormed, Stepped, Enabled;
  }

  // ----- Captures -----

  /** A capture of two pixels in one linear plane; the first pixel is dirty. */
  function Capture(px: seq<byte>, number: nat): (info: Accelerated)
    requires |px| == 8 && number < U64_LIMIT
    ensures info.Valid() && info.Sized()
  {
    Accelerated(1, px, 8, RGBA, 0, Texture(px, 8, 2, 1, RGBA), 2, 1, 0, 0, 2, 1, Some(number), true, 1, 1)
  }

  const DIRTY: seq<DirtyRect> := [DirtyRect(0, 0, 1, 1)]

  lemma CaptureIs(px: seq<byte>, number: nat)
    requires |px| == 8 && number < U64_LIMIT
    ensures Capture(px, number).Picture() == Image(2, 1, px)
    ensures Mapped(Capture(px, number)) == Image(2, 1, px)
  {
    var info := Capture(px, number);
    MappedIsPicture(info, true);
    forall i | 0 <= i < 8 ensures info.Picture().px[i] == px[i] {
      CoordsAddr(2, 1, i);
    }
  }

  const GOOD_BLIT: BlitEnv := BlitEnv(true, Created, true, true, [])
  const GOOD: Env := Env(true, true, true, GOOD_BLIT)
  const NO_CONTEXT: Env := Env(true, true, true, GOOD_BLIT.(current := false))

  // ----- What the callbacks do here -----

  /** A visible view on dma-bufs. */
  predicate Runs(v: ViewState) {
    && Fits(v) && v.link == Link(true, true, true, false) && v.mode == Mode(true, false, 0, 2, 1, v.mode.roiEnabled)
  }

  predicate Free(v: ViewState) {
    !v.pace.pending && v.pace.credit && v.deferred == Nothing && v.gpu.inflight.None?
  }

  predicate Waits(v: ViewState) {
    v.pace.pending && !v.pace.credit
  }

  function Blitten(v: ViewState, b: BufName, info: Accelerated, full: bool): Staged
    requires Fits(v) && info.Valid() && info.Sized()
  {
    BlitOf(v.gpu.bufs.At(b), info, DIRTY, full, GOOD_BLIT).0
  }

  /** A direct capture goes out through the main buffer. */
  lemma DirectView(v: ViewState, info: Accelerated)
    requires Runs(v) && Free(v) && info.Valid() && info.Sized()
    requires info.planes == 1 && info.updateW > 0 && info.updateH > 0
    ensures var r := OnAcceleratedPaint(v, true, info, DIRTY, GOOD);
            && Runs(r) && r.mode == v.mode && Waits(r) && r.deferred == Nothing
            && r.pace.counter == info.counter && !r.pace.dropped
            && r.gpu.bufs == v.gpu.bufs.With(Main, Blitten(v, Main, info, !CanBlitDirty(v, info)))
            && r.gpu.inflight == Some(Held(Main, Image(info.w, info.h, r.gpu.bufs.main.image)))
            && r.hist.wire == v.hist.wire + [StagedFrame(r.gpu.bufs, Main, info.w, info.h)]
            && r.hist.latest == Some(info.Picture()) && !r.canvas.lastSentShm
  {
    var l := Captured(v, info);
    var s := StageInto(l, info, DIRTY, !CanBlitDirty(l, info), GOOD_BLIT);
    assert s.1 && s.0.gpu.bufs.main == Blitten(v, Main, info, !CanBlitDirty(v, info));
  }

  /** One whose staging fails at once goes out as CEF's own buffer. */
  lemma ForwardView(v: ViewState, info: Accelerated)
    requires Runs(v) && Free(v) && info.Valid() && info.Sized()
    requires info.planes == 1 && info.updateW > 0 && info.updateH > 0
    ensures var r := OnAcceleratedPaint(v, true, info, DIRTY, NO_CONTEXT);
            && Runs(r) && r.mode == v.mode && Waits(r) && r.deferred == Nothing
            && r.pace.counter == info.counter && !r.pace.dropped
            && r.gpu.bufs == v.gpu.bufs && r.gpu.inflight.None?
            && r.hist.wire == v.hist.wire + [DmaForwarded(info.w, info.h)] && !r.canvas.lastSentShm
  {
    var l := Captured(v, info);
    var s := StageInto(l, info, DIRTY, !CanBlitDirty(l, info), NO_CONTEXT.blit);
    assert !s.1 && s.0.gpu.bufs == v.gpu.bufs;
  }

  /** One that has to wait is staged into the buffer that is not in flight. */
  lemma StagedView(v: ViewState, info: Accelerated)
    requires Runs(v) && (v.pace.pending || !v.pace.credit) && info.Valid() && info.Sized() && info.planes == 1
    ensures var r := OnAcceleratedPaint(v, true, info, DIRTY, GOOD);
            && Runs(r) && r.pace == v.pace.(dropped := true, needsFull := true, counter := None)
            && r.deferred == Buffer(Held(Target(v), info.Picture()))
            && r.gpu.bufs == v.gpu.bufs.With(Target(v), BlitOf(v.gpu.bufs.At(Target(v)), info, [], true, GOOD_BLIT).0)
            && r.gpu.inflight == v.gpu.inflight && r.hist.wire == v.hist.wire
            && r.hist.latest == Some(info.Picture()) && r.hist.kept && r.canvas == v.canvas
  {
    var l := Captured(v, info);
    var s := StageInto(l, info, [], true, GOOD_BLIT);
    assert s.1;
  }

  /** Or copied through its mapping if that staging fails. */
  lemma MappedView(v: ViewState, info: Accelerated)
    requires Runs(v) && Waits(v) && info.Valid() && Mappable(info, true)
    ensures var r := OnAcceleratedPaint(v, true, info, DIRTY, NO_CONTEXT);
            && Runs(r) && r.mode == v.mode && Waits(r) && r.deferred == Pixels(Mapped(info))
            && r.gpu.bufs == v.gpu.bufs && r.gpu.inflight == v.gpu.inflight && r.hist.wire == v.hist.wire
            && r.canvas == v.canvas
  {
    var l := Captured(v, info);
    var s := StageInto(l, info, [], true, NO_CONTEXT.blit);
    assert !s.1 && s.0.gpu.bufs == v.gpu.bufs;
  }

  /** An ACCEPTED and a NEXT_FRAME: the view is ready again, and sends what it
      kept. */
  lemma ResumedView(v: ViewState) returns (c: ViewState)
    requires Runs(v) && Waits(v)
    ensures Runs(c) && Free(c.(deferred := Nothing)) && c.deferred == v.deferred && c.gpu.bufs == v.gpu.bufs
    ensures c.mode == v.mode && c.canvas.shadow == v.canvas.shadow && (c.canvas.baselineValid ==> v.canvas.lastSentShm)
    ensures c.hist.wire == v.hist.wire && c.hist.latest == v.hist.latest && c.canvas.lastSentShm == v.canvas.lastSentShm
    ensures !v.pace.dropped && v.deferred == Nothing ==> !c.pace.needsFull && c.pace.counter == v.pace.counter
    ensures c.hist.kept == v.hist.kept && (v.gpu.inflight.Some? ==> c.gpu.lastAcked == v.gpu.inflight)
    ensures PollSocket(v, Some(AckMsg(Accepted, 0, 0)), [NextFrame], true, GOOD) == MaybeSendDeferred(c, GOOD)
  {
    c := TakeRequests(TakeAck(v, Some(AckMsg(Accepted, 0, 0)), true), [NextFrame], true);
    assert CountNextFrames([NextFrame]) == 1;
  }

  /** Two pixels are too few for a rectangle: a picture is unchanged or sent whole. */
  lemma TwoPixels(px: seq<byte>, was: seq<byte>)
    requires |px| == |was| == 8
    ensures px == was ==> Verdict(DiffPixels(px, was, 2, 1), 2, 1).0 == Unchanged
    ensures px != was ==> Verdict(DiffPixels(px, was, 2, 1), 2, 1).0 == Full
  {
    var pixels := DiffPixels(px, was, 2, 1);
    NoDifferenceMeansEqual(px, was, 2, 1);
    if pixels != {} {
      forall r | TightBox(pixels, r) && Inside(r, 2, 1) ensures r.width * r.height * 2 >= 2 {
        assert r.height == 1;
      }
    }
  }

  lemma ResentView(c: ViewState, image: Image)
    requires Runs(c) && Free(c.(deferred := Nothing)) && c.deferred == Pixels(image)
    requires image.w == 2 && image.h == 1
    requires c.mode.roiEnabled && c.canvas.baselineValid ==> c.canvas.shadow != Some(image)
    ensures var r := MaybeSendDeferred(c, GOOD);
            && Runs(r) && r.mode == c.mode && Waits(r) && r.deferred == Nothing && r.gpu.bufs == c.gpu.bufs
            && r.gpu.inflight.None?
            && r.hist.wire == c.hist.wire + [ShmFull(image.w, image.h, image.px)]
            && r.canvas.lastSentShm && r.canvas.shadow == Some(image)
  {
    if c.canvas.shadow.Some? && c.canvas.shadow.value.w == 2 && c.canvas.shadow.value.h == 1 {
      TwoPixels(image.px, c.canvas.shadow.value.px);
    }
    hide Verdict, DiffPixels;
  }

  lemma ResentStagedView(c: ViewState, held: Held)
    requires Runs(c) && Free(c.(deferred := Nothing)) && c.deferred == Buffer(held) && c.gpu.bufs.At(held.b).present
    ensures var r := MaybeSendDeferred(c, GOOD);
            && Runs(r) && r.mode == c.mode && Waits(r) && r.deferred == Nothing && r.gpu.bufs == c.gpu.bufs
            && r.hist.wire == c.hist.wire + [StagedFrame(c.gpu.bufs, held.b, held.image.w, held.image.h)]
            && r.hist.latest == c.hist.latest && r.hist.kept == c.hist.kept && !r.canvas.lastSentShm
            && r.gpu.inflight == Some(Held(held.b, held.image.(px := c.gpu.bufs.At(held.b).image)))
  {
  }

  // ----- Steps -----

  /** A run has come here; both ends are up and nothing older is left. */
  ghost predicate Up(s: System) {
    && Reachable(s) && WellFormed(s) && Runs(s.view)
    && s.net.alive && s.net.open && s.net.atLive && s.net.stale == [] && s.net.queued == 0
    && s.game == Game(0, 0, false, false, false)
  }

  /** Nothing is under way and a frame may be sent. */
  ghost predicate Ready(s: System) {
    Up(s) && s.net.frames == [] && s.net.ctl == [] && Free(s.view)
  }

  ghost predicate Sending(s: System, f: Frame) {
    Up(s) && s.net.frames == [f] && s.net.ctl == [] && Waits(s.view)
  }

  ghost predicate Answered(s: System) {
    Up(s) && s.net.frames == [] && s.net.ctl == [AckRecord(AckMsg(Accepted, 0, 0))] && Waits(s.view)
  }

  lemma Asking(s: System) returns (t: System)
    requires Up(s)
    ensures Up(t) && t == s.(net := Asked(s.net, NextFrame))
  {
    hide WellFormed;
    t := ReachStep(s, GameAsks(NextFrame));
  }

  /** A callback and what it sent. */
  lemma CallsBack(s: System, a: Action, r: ViewState) returns (t: System)
    requires Up(s) && Enabled(s, a) && a.Accelerate? && r == ViewAfter(s.view, a) && Runs(r)
    ensures Up(t) && t == Moved(s, r)
  {
    hide WellFormed, OnAcceleratedPaint;
    t := ReachStep(s, a);
  }

  lemma Polling(s: System, ack: AckMsg, r: ViewState) returns (t: System)
    requires Up(s) && s.view.pace.pending && s.net.ctl == [AckRecord(ack), RequestRecord(NextFrame)]
    requires r == PollSocket(s.view, Some(ack), [NextFrame], true, GOOD) && Runs(r)
    ensures Up(t) && t == Moved(s.(net := s.net.(ctl := [])), r)
  {
    PolledBoth(s, ack);
    StepIsPoll(s, Poll(ACK_SIZE, [REQUEST_SIZE], StillUp, GOOD));
    hide WellFormed, PollSocket, Polled, Reachable, Retire, Stepped;
    t := ReachStep(s, Poll(ACK_SIZE, [REQUEST_SIZE], StillUp, GOOD));
  }

  lemma PolledBoth(s: System, ack: AckMsg)
    requires Up(s) && s.view.pace.pending && s.net.ctl == [AckRecord(ack), RequestRecord(NextFrame)]
    ensures Polled(s, ACK_SIZE, [REQUEST_SIZE], StillUp, GOOD)
            == Moved(s.(net := s.net.(ctl := [])), PollSocket(s.view, Some(ack), [NextFrame], true, GOOD))
  {
    ReadsBoth(s.net, ack);
    var r := Read(s.view.pace.pending, s.net, ACK_SIZE, [REQUEST_SIZE], StillUp);
    assert r == Reading(Some(ack), [NextFrame], 2, 0, true);
    assert AfterRead(s, r) == s.(net := s.net.(ctl := []));
  }

  lemma ReadsBoth(net: Net, ack: AckMsg)
    requires net.ctl == [AckRecord(ack), RequestRecord(NextFrame)] && net.queued == 0
    ensures Read(true, net, ACK_SIZE, [REQUEST_SIZE], StillUp) == Reading(Some(ack), [NextFrame], 2, 0, true)
  {
    assert AckTakes(net.ctl, ACK_SIZE, LOOP_LIMIT) == 1;
    OneAck(ack);
    assert net.ctl[..1] == [AckRecord(ack)];
    var rest := net.ctl[1..];
    assert rest == [RequestRecord(NextFrame)] && rest[1..] == [];
    assert ReadRequests([], 0, false, [], POLL_LIMIT - 1, false) == Received([], 0, 0, true);
    assert ReadRequests(rest, 0, false, [REQUEST_SIZE], POLL_LIMIT, false) == Received([NextFrame], 1, 0, true);
  }

  /** A turn that accepts the frame and uploads nothing into imported memory. */
  lemma Turning(s: System, f: Frame, gl: S.ShowEnv) returns (t: System)
    requires Sending(s, f) && S.Show(S.Keep(s.screen, false), f, gl).1 && S.TurnUploads(s.screen, [f], false, gl) == []
    ensures Answered(t) && t.view == s.view && t.screen == S.Show(S.Keep(s.screen, false), f, gl).0 && t.gone == s.gone
  {
    TurnedHere(s, f, gl);
    StepIsTurn(s, GameTurn(1, false, gl, false, true));
    hide WellFormed, Turned, Reachable, Runs, Stepped, S.Show, S.TurnUploads;
    t := ReachStep(s, GameTurn(1, false, gl, false, true));
  }

  lemma TurnedHere(s: System, f: Frame, gl: S.ShowEnv)
    requires Sending(s, f) && S.Show(S.Keep(s.screen, false), f, gl).1 && S.TurnUploads(s.screen, [f], false, gl) == []
    ensures Turned(s, 1, false, gl, false, true)
            == s.(screen := S.Show(S.Keep(s.screen, false), f, gl).0,
                  net := s.net.(frames := [], ctl := [AckRecord(AckMsg(Accepted, 0, 0))]))
  {
    hide Reachable, S.TurnUploads;
    assert Inbox(s.net)[..1] == [f] && S.Bare(gl, false) == gl && s.net.frames[1..] == [];
  }

  lemma InitialFits(roi: bool)
    ensures WellFormed(Initial(true, roi, 2, 1)) && Reachable(Initial(true, roi, 2, 1))
  {
    var s, none: seq<Action> := Initial(true, roi, 2, 1), [];
    assert Run([s], none) && [s][|none|] == s;
  }

  lemma Loaded(roi: bool) returns (s: System)
    ensures Reachable(s) && WellFormed(s)
    ensures var i := Initial(true, roi, 2, 1); s == i.(view := i.view.(link := i.view.link.(pageReady := true)))
  {
    InitialFits(roi);
    hide WellFormed, Reachable;
    s := ReachStep(Initial(true, roi, 2, 1), PageLoaded(true, false));
  }

  /** The first connection; the game has turned to it. */
  lemma Connecting(roi: bool) returns (s: System)
    ensures Up(s) && s.net.frames == [] && s.net.ctl == [] && s.screen == S.BLANK && s.gone == map[]
    ensures !s.view.pace.pending && !s.view.pace.credit && s.view.pace.needsFull && s.view.deferred == Nothing
    ensures s.view.mode.roiEnabled == roi && s.view.gpu == Gpu(Buffers(FRESH, FRESH), None, None)
  {
    s := Loaded(roi);
    hide WellFormed, Reachable;
    s := ReachStep(s, Task(true, true));
    s := ReachStep(s, GameTurnsTo);
  }

  lemma Opening(roi: bool) returns (s: System)
    ensures Ready(s) && s.screen == S.BLANK && s.view.pace.needsFull && s.gone == map[]
    ensures s.view.mode.roiEnabled == roi && s.view.gpu == Gpu(Buffers(FRESH, FRESH), None, None)
  {
    var c := Connecting(roi);
    var q := Asking(c);
    PolledRequest(q);
    hide WellFormed, Reachable, Polled;
    s := ReachStep(q, Poll(0, [REQUEST_SIZE], StillUp, GOOD));
  }

  lemma PolledRequest(s: System)
    requires Up(s) && !s.view.pace.pending && s.view.deferred == Nothing && s.net.ctl == [RequestRecord(NextFrame)]
    ensures var p := Polled(s, 0, [REQUEST_SIZE], StillUp, GOOD);
            && p == s.(view := p.view, net := s.net.(ctl := []))
            && Runs(p.view) && p.view.pace == s.view.pace.(credit := true)
            && p.view.gpu == s.view.gpu && p.view.deferred == Nothing && p.view.mode == s.view.mode
  {
    hide Reachable;
    var r := Read(false, s.net, 0, [REQUEST_SIZE], StillUp);
    assert r == Reading(None, [NextFrame], 1, 0, true);
    assert AfterRead(s, r) == s.(net := s.net.(ctl := []));
    assert CountNextFrames([NextFrame]) == 1;
  }

  // ----- The same for captures -----

  lemma SendsDirect(s: System, px: seq<byte>, n: nat) returns (t: System)
    requires Ready(s) && |px| == 8 && n < U64_LIMIT
    ensures Sending(t, StagedFrame(t.view.gpu.bufs, Main, 2, 1)) && t.screen == s.screen
    ensures var v, r, info := s.view, t.view, Capture(px, n);
            && r.mode == v.mode && !r.canvas.lastSentShm
            && r.deferred == Nothing && r.pace.counter == Some(n) && !r.pace.dropped
            && r.gpu.bufs == v.gpu.bufs.With(Main, Blitten(v, Main, info, !CanBlitDirty(v, info)))
            && r.gpu.inflight == Some(Held(Main, Image(2, 1, r.gpu.bufs.main.image)))
            && r.hist.latest == Some(Image(2, 1, px))
  {
    var info := Capture(px, n);
    DirectView(s.view, info);
    CaptureIs(px, n);
    var r := OnAcceleratedPaint(s.view, true, info, DIRTY, GOOD);
    t := CallsBack(s, Accelerate(true, info, DIRTY, GOOD), r);
  }

  lemma SendsForwarded(s: System, px: seq<byte>, n: nat) returns (t: System)
    requires Ready(s) && |px| == 8 && n < U64_LIMIT
    ensures Sending(t, DmaForwarded(2, 1)) && t.screen == s.screen
    ensures var r := t.view;
            && r.deferred == Nothing && r.pace.counter == Some(n) && !r.pace.dropped
            && r.gpu.bufs == s.view.gpu.bufs && r.gpu.inflight.None?
  {
    var info := Capture(px, n);
    ForwardView(s.view, info);
    var r := OnAcceleratedPaint(s.view, true, info, DIRTY, NO_CONTEXT);
    t := CallsBack(s, Accelerate(true, info, DIRTY, NO_CONTEXT), r);
  }

  lemma KeepsStaged(s: System, f: Frame, px: seq<byte>, n: nat) returns (t: System)
    requires Sending(s, f) && |px| == 8 && n < U64_LIMIT
    ensures Sending(t, f) && t.screen == s.screen
    ensures var v, r := s.view, t.view;
            && r.deferred == Buffer(Held(Target(v), Image(2, 1, px))) && r.gpu.inflight == v.gpu.inflight
            && r.gpu.bufs
               == v.gpu.bufs.With(Target(v), BlitOf(v.gpu.bufs.At(Target(v)), Capture(px, n), [], true, GOOD_BLIT).0)
            && r.hist.latest == Some(Image(2, 1, px)) && r.hist.kept
  {
    var info := Capture(px, n);
    StagedView(s.view, info);
    CaptureIs(px, n);
    t := CallsBack(s, Accelerate(true, info, DIRTY, GOOD), OnAcceleratedPaint(s.view, true, info, DIRTY, GOOD));
  }

  lemma KeepsMapped(s: System, f: Frame, px: seq<byte>, n: nat) returns (t: System)
    requires Sending(s, f) && |px| == 8 && n < U64_LIMIT
    ensures Sending(t, f) && t.screen == s.screen
    ensures t.view.deferred == Pixels(Image(2, 1, px)) && t.view.gpu.bufs == s.view.gpu.bufs
    ensures t.view.gpu.inflight == s.view.gpu.inflight
    ensures t.view.mode == s.view.mode && t.view.canvas == s.view.canvas
  {
    var info := Capture(px, n);
    MappedView(s.view, info);
    CaptureIs(px, n);
    var r := OnAcceleratedPaint(s.view, true, info, DIRTY, NO_CONTEXT);
    t := CallsBack(s, Accelerate(true, info, DIRTY, NO_CONTEXT), r);
  }

  /** The answer arrives, and with it a NEXT_FRAME. */
  lemma Resumes(s: System) returns (t: System)
    requires Answered(s) && s.view.deferred == Nothing
    ensures Ready(t) && t.screen == s.screen && t.view.gpu.bufs == s.view.gpu.bufs
    ensures t.view.hist.latest == s.view.hist.latest
    ensures !s.view.pace.dropped ==> !t.view.pace.needsFull && t.view.pace.counter == s.view.pace.counter
  {
    hide WellFormed, Reachable, PollSocket;
    var q := Asking(s);
    var c := ResumedView(q.view);
    t := Polling(q, AckMsg(Accepted, 0, 0), c);
  }

  lemma ResumesWithPixels(s: System, image: Image) returns (t: System)
    requires Answered(s) && s.view.deferred == Pixels(image) && image.w == 2 && image.h == 1
    requires s.view.mode.roiEnabled && s.view.canvas.lastSentShm ==> s.view.canvas.shadow != Some(image)
    ensures t.view.mode == s.view.mode
    ensures Sending(t, ShmFull(image.w, image.h, image.px)) && t.screen == s.screen
    ensures t.view.gpu.bufs == s.view.gpu.bufs && t.view.gpu.inflight.None? && t.view.deferred == Nothing
    ensures t.view.canvas.lastSentShm && t.view.canvas.shadow == Some(image)
  {
    hide WellFormed, Reachable, PollSocket, MaybeSendDeferred;
    var q := Asking(s);
    var c := ResumedView(q.view);
    ResentView(c, image);
    t := Polling(q, AckMsg(Accepted, 0, 0), MaybeSendDeferred(c, GOOD));
  }

  lemma ResumesWithBuffer(s: System, held: Held) returns (t: System)
    requires Answered(s) && s.view.deferred == Buffer(held) && s.view.gpu.bufs.At(held.b).present
    ensures Sending(t, StagedFrame(s.view.gpu.bufs, held.b, held.image.w, held.image.h)) && t.screen == s.screen
    ensures t.view.gpu.bufs == s.view.gpu.bufs && t.view.hist.latest == s.view.hist.latest && t.view.deferred == Nothing
  {
    hide WellFormed, Reachable, PollSocket, MaybeSendDeferred;
    var q := Asking(s);
    var c := ResumedView(q.view);
    ResentStagedView(c, held);
    t := Polling(q, AckMsg(Accepted, 0, 0), MaybeSendDeferred(c, GOOD));
  }

  // ----- The first frame -----

  /** The first object of a staging buffer, with this picture. */
  function FirstObject(px: seq<byte>): Staged {
    Staged(true, 2, 1, true, false, 2, 1, px, ByView)
  }

  lemma FullBlit(s: Staged, px: seq<byte>, n: nat, dirty: seq<DirtyRect>, full: bool)
    requires |px| == 8 && n < U64_LIMIT
    requires s == FRESH || (full && |s.image| == 8 && s.(author := ByView) == FirstObject(s.image))
    ensures BlitOf(s, Capture(px, n), dirty, full, GOOD_BLIT) == (FirstObject(px), true)
  {
    var info := Capture(px, n);
    CaptureIs(px, n);
    ExportHoldsFrame(s, 1, info.texture, 2, 1, dirty, full, GOOD_BLIT);
  }

  /** Sent through the main buffer, staged in full. */
  lemma FirstSent(px: seq<byte>, roi: bool) returns (s: System)
    requires |px| == 8
    ensures Sending(s, DmaStaged(2, 1, 2, Main, 1)) && s.screen == S.BLANK
    ensures s.view.gpu.bufs == Buffers(FirstObject(px), FRESH)
    ensures s.view.gpu.inflight == Some(Held(Main, Image(2, 1, px)))
    ensures s.view.deferred == Nothing && s.view.pace.counter == Some(0) && !s.view.pace.dropped
    ensures s.view.mode.roiEnabled == roi && !s.view.canvas.lastSentShm
  {
    var o := Opening(roi);
    s := SendsDirect(o, px, 0);
    FullBlit(FRESH, px, 0, DIRTY, !CanBlitDirty(o.view, Capture(px, 0)));
  }

  const AS_IMAGE: S.ShowEnv := S.ShowEnv(true, false, false, S.ViaImage, [])
  const AS_MEMORY: S.ShowEnv := AS_IMAGE.(imported := S.ViaMemoryObject)

  function FirstImported(image: bool): S.Screen {
    S.Screen([S.EMPTY_SLOT, S.Slot(S.Shared(S.StagedBo(Main, 1)), 2, 1, image, image)], 1, true, 2, false)
  }

  /** And imported by the game. */
  lemma FirstShown(s: System, gl: S.ShowEnv) returns (t: System)
    requires Sending(s, DmaStaged(2, 1, 2, Main, 1)) && s.screen == S.BLANK && (gl == AS_IMAGE || gl == AS_MEMORY)
    ensures Answered(t) && t.view == s.view && t.screen == FirstImported(gl == AS_IMAGE)
  {
    t := Turning(s, DmaStaged(2, 1, 2, Main, 1), gl);
  }

  // ----- Wrong buffer -----

  /** The first object of the spare buffer has the identifier that the first one
      of the main buffer had: its frame is accepted, while the picture before it
      stays on screen. */
  lemma WrongBufferHappens(first: seq<byte>, second: seq<byte>) returns (s: System, a: Action, t: System)
    requires |first| == |second| == 8
    ensures Reachable(s) && WellFormed(s) && Enabled(s, a) && ShowsWrong(s, a)
    ensures Ready(t) && t.view.hist.latest == Some(Image(2, 1, second))
    ensures OnScreen(t) == Some(Image(2, 1, first))
  {
    hide WellFormed, Reachable, Runs;
    s := SecondResent(first, second);
    a := GameTurn(1, false, AS_IMAGE, false, true);
    WrongTurn(s, a);
    t := Turning(s, DmaStaged(2, 1, 2, Spare, 1), AS_IMAGE);
    t := Resumes(t);
  }

  lemma SecondResent(first: seq<byte>, second: seq<byte>) returns (s: System)
    requires |first| == |second| == 8
    ensures Sending(s, DmaStaged(2, 1, 2, Spare, 1)) && s.screen == FirstImported(true) && s.view.deferred == Nothing
    ensures s.view.gpu.bufs == Buffers(FirstObject(first), FirstObject(second))
    ensures s.view.hist.latest == Some(Image(2, 1, second))
  {
    hide WellFormed, Reachable, Runs;
    s := FirstSent(first, false);
    s := KeepsStaged(s, DmaStaged(2, 1, 2, Main, 1), second, 1);
    FullBlit(FRESH, second, 1, [], true);
    s := FirstShown(s, AS_IMAGE);
    s := ResumesWithBuffer(s, Held(Spare, Image(2, 1, second)));
  }

  lemma WrongTurn(s: System, a: Action)
    requires Sending(s, DmaStaged(2, 1, 2, Spare, 1)) && s.screen == FirstImported(true)
    requires a == GameTurn(1, false, AS_IMAGE, false, true)
    ensures Enabled(s, a) && ShowsWrong(s, a)
  {
    assert Inbox(s.net)[..1] == [DmaStaged(2, 1, 2, Spare, 1)];
  }

  // ----- A stale base -----

  /** Two captures on: the second went out as CEF's own buffer, and the main
      staging buffer still has the first. */
  lemma SecondForwarded(first: seq<byte>, second: seq<byte>) returns (s: System)
    requires |first| == |second| == 8
    ensures Ready(s) && s.view.gpu.bufs == Buffers(FirstObject(first), FRESH)
    ensures !s.view.pace.needsFull && s.view.pace.counter == Some(1)
  {
    hide WellFormed, Reachable, Runs;
    s := FirstSent(first, false);
    s := FirstShown(s, AS_IMAGE);
    s := Resumes(s);
    s := SendsForwarded(s, second, 1);
    s := Turning(s, DmaForwarded(2, 1), AS_IMAGE);
    s := Resumes(s);
  }

  /** Staged by its dirty rectangles, the third goes out with the first outside
      them: its list says what changed since the second. */
  lemma StaleBaseHappens(first: seq<byte>, second: seq<byte>, third: seq<byte>) returns (t: System)
    requires |first| == |second| == |third| == 8 && first[4] != third[4] && second[4..] == third[4..]
    ensures Reachable(t) && WellFormed(t) && t.view.gpu.inflight.Some?
    ensures t.view.hist.latest == Some(Image(2, 1, third)) && t.view.gpu.inflight.value.image != Image(2, 1, third)
  {
    hide Reachable;
    var s := SecondForwarded(first, second);
    t := SendsDirect(s, third, 2);
    DirtyKeepsOld(first, third);
  }

  lemma DirtyKeepsOld(first: seq<byte>, third: seq<byte>)
    requires |first| == |third| == 8 && first[4] != third[4]
    ensures BlitOf(FirstObject(first), Capture(third, 2), DIRTY, false, GOOD_BLIT).0.image != third
  {
    CaptureIs(third, 2);
    DiffersOutside(first, third);
    var info, s := Capture(third, 2), FirstObject(first);
    hide CanvasesAgree, Texture, Flip, BlitAll;
    PartialBlit(s, info.texture);
    assert info.Picture().px == Flip(info.texture, 2, 1);
    ExportHoldsIff(s, 1, info.texture, 2, 1, DIRTY, false, GOOD_BLIT);
  }

  lemma PartialBlit(s: Staged, texture: seq<byte>)
    requires |texture| == 8 && s == FirstObject(s.image) && |s.image| == 8
    ensures var r := BlitAndExport(s, 1, texture, 2, 1, DIRTY, false, GOOD_BLIT); r.1 && r.0.partial
  {
    hide BlitAll;
    assert DirtyBlitRect(DIRTY[0], 2, 1).Some?;
  }

  lemma DiffersOutside(first: seq<byte>, third: seq<byte>)
    requires |first| == |third| == 8 && first[4] != third[4]
    ensures !CanvasesAgree(first, third, 2, 1, DIRTY)
  {
    assert !Hit(DIRTY, 1, 0);
    assert Col(2, 4) == 1 && Row(2, 4) == 0;
  }

  // ----- Uploads into imported memory -----

  function SecondShown(b: seq<byte>): S.Screen {
    S.Screen([S.Slot(S.Own(b), 2, 1, false, false), S.Slot(S.Shared(S.StagedBo(Main, 1)), 2, 1, false, false)], 0, true,
             0, false)
  }

  /** The first capture was imported as a memory object; two more, whose staging
      failed, went through shared memory, the second of them still under way. */
  lemma ThirdResent(a: seq<byte>, b: seq<byte>, c: seq<byte>, roi: bool) returns (s: System)
    requires |a| == |b| == |c| == 8 && (roi ==> b != c)
    ensures s.view.mode.roiEnabled == roi
    ensures Sending(s, ShmFull(2, 1, c)) && s.screen == SecondShown(b)
    ensures s.view.gpu.bufs == Buffers(FirstObject(a), FRESH) && s.view.gpu.inflight.None? && s.view.deferred == Nothing
    ensures s.view.canvas.lastSentShm && s.view.canvas.shadow == Some(Image(2, 1, c))
  {
    hide WellFormed, Reachable, Runs;
    s := FirstSent(a, roi);
    s := KeepsMapped(s, DmaStaged(2, 1, 2, Main, 1), b, 1);
    s := FirstShown(s, AS_MEMORY);
    s := ResumesWithPixels(s, Image(2, 1, b));
    s := KeepsMapped(s, ShmFull(2, 1, b), c, 2);
    s := Turning(s, ShmFull(2, 1, b), AS_MEMORY);
    s := ResumesWithPixels(s, Image(2, 1, c));
  }

  /** A capture deferred in the main buffer is overwritten by the upload of the
      older frame: the back texture is that very buffer, imported three frames
      before, and at rest neither is collided nor deleted. */
  lemma ErasureHappens(a: seq<byte>, b: seq<byte>, c: seq<byte>, e: seq<byte>) returns (s: System, act: Action)
    requires |a| == |b| == |c| == |e| == 8 && c != e
    ensures Reachable(s) && WellFormed(s) && Enabled(s, act) && Erases(s, act)
    ensures s.view.hist.kept && s.view.hist.latest == Some(Image(2, 1, e))
    ensures s.view.deferred == Buffer(Held(Main, Image(2, 1, e))) && !s.screen.collided
    ensures Stepped(s, act).view.gpu.bufs.main.image == c
  {
    hide WellFormed, Reachable, Runs;
    s := ThirdResent(a, b, c, false);
    s := KeepsStaged(s, ShmFull(2, 1, c), e, 3);
    FullBlit(FirstObject(a), e, 3, [], true);
    act := GameTurn(1, false, AS_MEMORY, false, true);
    ErasingTurn(s, act, c, e);
  }

  lemma ErasingTurn(s: System, act: Action, c: seq<byte>, e: seq<byte>)
    requires Sending(s, ShmFull(2, 1, c)) && S.Foreign(s.screen.slots[1 - s.screen.idx]) && |c| == |e| == 8 && c != e
    requires s.screen.slots[1 - s.screen.idx] == S.Slot(S.Shared(S.StagedBo(Main, 1)), 2, 1, false, false)
    requires s.view.gpu.bufs == Buffers(FirstObject(e), FRESH) && s.view.deferred == Buffer(Held(Main, Image(2, 1, e)))
    requires act == GameTurn(1, false, AS_MEMORY, false, true)
    ensures Enabled(s, act) && Erases(s, act) && Stepped(s, act).view.gpu.bufs.main.image == c
  {
    StepIsTurn(s, act);
    UploadsIntoMain(s, c);
    hide Stepped, WellFormed, Reachable, Runs, S.Turn, S.TurnUploads;
    assert Upload(s, act) == [S.Write(S.StagedBo(Main, 1), ShmFull(2, 1, c))];
    assert Relies(s.view, Main) && Overwrites(s, act, Main);
  }

  lemma UploadsIntoMain(s: System, c: seq<byte>)
    requires Sending(s, ShmFull(2, 1, c)) && |c| == 8
    requires s.screen.slots[1 - s.screen.idx] == S.Slot(S.Shared(S.StagedBo(Main, 1)), 2, 1, false, false)
    ensures Inbox(s.net)[..1] == [ShmFull(2, 1, c)]
    ensures S.TurnUploads(s.screen, [ShmFull(2, 1, c)], false, AS_MEMORY)
            == [S.Write(S.StagedBo(Main, 1), ShmFull(2, 1, c))]
  {
    hide Reachable;
  }

  // ----- A canvas that is not the snapshot -----

  /** The upload has been accepted and its buffer is on screen. */
  lemma Uploading(s: System, c: seq<byte>) returns (t: System)
    requires Sending(s, ShmFull(2, 1, c)) && |c| == 8 && s.screen.idx == 0
    requires s.screen.slots[1] == S.Slot(S.Shared(S.StagedBo(Main, 1)), 2, 1, false, false)
    requires var m := s.view.gpu.bufs.main; s.view.gpu.bufs == Buffers(FirstObject(m.image), FRESH) && |m.image| == 8
    ensures Answered(t) && t.screen.idx == 1 && t.screen.slots == s.screen.slots && !t.screen.collided
    ensures t.view == s.view.(gpu := t.view.gpu, hist := t.view.hist)
    ensures t.view.gpu == s.view.gpu.(bufs := Buffers(FirstObject(c).(author := ByGame), FRESH))
  {
    var act := GameTurn(1, false, AS_MEMORY, false, true);
    StepIsTurn(s, act);
    UploadsIntoMain(s, c);
    UploadTurn(s, c);
    hide Stepped, WellFormed, Reachable, Turned, Runs, S.TurnUploads;
    t := ReachStep(s, act);
  }

  lemma UploadTurn(s: System, c: seq<byte>)
    requires Sending(s, ShmFull(2, 1, c)) && |c| == 8 && s.screen.idx == 0
    requires s.screen.slots[1] == S.Slot(S.Shared(S.StagedBo(Main, 1)), 2, 1, false, false)
    requires var m := s.view.gpu.bufs.main; s.view.gpu.bufs == Buffers(FirstObject(m.image), FRESH) && |m.image| == 8
    requires Inbox(s.net)[..1] == [ShmFull(2, 1, c)]
    requires S.TurnUploads(s.screen, [ShmFull(2, 1, c)], false, AS_MEMORY)
             == [S.Write(S.StagedBo(Main, 1), ShmFull(2, 1, c))]
    ensures var t := Turned(s, 1, false, AS_MEMORY, false, true);
            && t.net == s.net.(frames := [], ctl := [AckRecord(AckMsg(Accepted, 0, 0))]) && t.game == s.game
            && t.screen.idx == 1 && t.screen.slots == s.screen.slots && !t.screen.collided
            && t.view == s.view.(gpu := t.view.gpu, hist := t.view.hist)
            && t.view.gpu == s.view.gpu.(bufs := Buffers(FirstObject(c).(author := ByGame), FRESH)) && Runs(t.view)
  {
    hide Reachable, S.TurnUploads;
    assert s.net.frames[1..] == [];
  }

  /** An ACCEPTED alone: nothing may be sent yet. */
  lemma SettledView(v: ViewState)
    requires Runs(v) && Waits(v) && v.deferred == Nothing && v.canvas.lastSentShm && v.gpu.inflight.None?
    ensures var r := PollSocket(v, Some(AckMsg(Accepted, 0, 0)), [], true, GOOD);
            && Runs(r) && !r.pace.pending && !r.pace.credit && r.deferred == Nothing && r.gpu.bufs == v.gpu.bufs
            && r.gpu.inflight.None? && r.canvas == v.canvas.(baselineValid := true) && r.mode == v.mode
  {
  }

  lemma PolledAck(s: System, ack: AckMsg)
    requires Up(s) && s.view.pace.pending && s.net.ctl == [AckRecord(ack)]
    ensures Polled(s, ACK_SIZE, [], StillUp, GOOD)
            == Moved(s.(net := s.net.(ctl := [])), PollSocket(s.view, Some(ack), [], true, GOOD))
  {
    hide PollSocket, Reachable;
    ReadsAck(s.net, ack);
    var r := Read(s.view.pace.pending, s.net, ACK_SIZE, [], StillUp);
    assert AfterRead(s, r) == s.(net := s.net.(ctl := []));
  }

  lemma OneAck(ack: AckMsg)
    ensures Acks([AckRecord(ack)]) == [ack]
    ensures Queue(0, [AckRecord(ack)]) == 0
    ensures AckTakes([AckRecord(ack)], ACK_SIZE, LOOP_LIMIT) == 1
  {
    var rs := [AckRecord(ack)];
    assert rs[1..] == [];
    assert Acks(rs[1..]) == [];
    assert Queue(0, rs[1..]) == 0;
  }

  lemma ReadsAck(net: Net, ack: AckMsg)
    requires net.ctl == [AckRecord(ack)] && net.queued == 0
    ensures Read(true, net, ACK_SIZE, [], StillUp) == Reading(Some(ack), [], 1, 0, true)
  {
    OneAck(ack);
    assert net.ctl[..1] == net.ctl && net.ctl[1..] == [];
    assert ReadRequests([], 0, false, [], POLL_LIMIT, false) == Received([], 0, 0, true);
    hide Acks, Queue, AckTakes, ReadRequests;
  }

  lemma Settles(s: System) returns (t: System)
    requires Answered(s) && s.view.deferred == Nothing && s.view.canvas.lastSentShm && s.view.gpu.inflight.None?
    ensures Up(t) && t.screen == s.screen && t.net.frames == [] && t.net.ctl == []
    ensures var v, r := s.view, t.view;
            && !r.pace.pending && !r.pace.credit && r.deferred == Nothing && r.gpu.bufs == v.gpu.bufs
            && r.gpu.inflight.None? && r.canvas == v.canvas.(baselineValid := true) && r.mode == v.mode
  {
    SettledView(s.view);
    PolledAck(s, AckMsg(Accepted, 0, 0));
    StepIsPoll(s, Poll(ACK_SIZE, [], StillUp, GOOD));
    hide WellFormed, PollSocket, Polled, Reachable, Stepped;
    t := ReachStep(s, Poll(ACK_SIZE, [], StillUp, GOOD));
  }

  /** The shared-memory frame shown from the imported buffer is the baseline; a
      capture staged into that buffer while the game asks for nothing is on
      screen at once, and the canvas no longer the snapshot. */
  lemma MirrorBreaks(a: seq<byte>, b: seq<byte>, c: seq<byte>, e: seq<byte>) returns (t: System)
    requires |a| == |b| == |c| == |e| == 8
    ensures Up(t) && !t.view.pace.pending && t.view.canvas.baselineValid && !t.screen.collided
    ensures t.view.canvas.shadow == Some(Image(2, 1, c)) && OnScreen(t) == Some(Image(2, 1, e))
  {
    hide WellFormed, Reachable, Runs;
    t := ThirdResent(a, b, c, false);
    t := Uploading(t, c);
    t := Settles(t);
    t := StagesOver(t, c, e);
  }

  lemma StagesOver(s: System, c: seq<byte>, e: seq<byte>) returns (t: System)
    requires Up(s) && !s.view.pace.pending && !s.view.pace.credit && s.view.gpu.inflight.None? && |c| == |e| == 8
    requires s.view.gpu.bufs == Buffers(FirstObject(c).(author := ByGame), FRESH)
    requires s.screen.Current() == S.Slot(S.Shared(S.StagedBo(Main, 1)), 2, 1, false, false)
    ensures Up(t) && t.screen == s.screen && t.view.canvas == s.view.canvas && !t.view.pace.pending
    ensures OnScreen(t) == Some(Image(2, 1, e))
  {
    hide Reachable;
    var info := Capture(e, 3);
    StagedView(s.view, info);
    FullBlit(s.view.gpu.bufs.main, e, 3, [], true);
    t := CallsBack(s, Accelerate(true, info, DIRTY, GOOD), OnAcceleratedPaint(s.view, true, info, DIRTY, GOOD));
  }

  // ----- The newest paint not on screen -----

  function Spoiling(garbage: seq<byte>): Env {
    Env(true, true, true, BlitEnv(true, Created, true, false, garbage))
  }

  /** With nothing to send, a capture whose blit fails half way is copied through
      its mapping. */
  lemma SpoiledView(v: ViewState, info: Accelerated, garbage: seq<byte>)
    requires Runs(v) && !v.pace.pending && !v.pace.credit && v.deferred == Nothing && v.gpu.inflight.None?
    requires info.Valid() && Mappable(info, true) && info.planes == 1 && Mapped(info) == info.Picture()
    requires v.gpu.bufs.main.present && v.gpu.bufs.main.w == info.w && v.gpu.bufs.main.h == info.h
    ensures var r := OnAcceleratedPaint(v, true, info, DIRTY, Spoiling(garbage));
            && Runs(r) && r.mode == v.mode && !r.pace.pending && !r.pace.credit && r.deferred == Pixels(info.Picture())
            && r.gpu.bufs == v.gpu.bufs.With(Main, Spoiled(v.gpu.bufs.main, garbage, info.w * info.h * 4))
            && r.canvas == v.canvas && r.hist.wire == v.hist.wire
            && r.hist.latest == Some(info.Picture()) && r.hist.kept
  {
    var l := Captured(v, info);
    var s := StageInto(l, info, [], true, Spoiling(garbage).blit);
    assert !s.1;
  }

  /** A kept picture that is the acknowledged canvas is not sent again. */
  lemma SkippedView(v: ViewState, px: seq<byte>)
    requires Runs(v) && v.mode.roiEnabled && !v.pace.pending && |px| == 8 && v.deferred == Pixels(Image(2, 1, px))
    requires v.canvas.baselineValid && v.canvas.shadow == Some(Image(2, 1, px)) && v.gpu.inflight.None?
    ensures var r := PollSocket(v, None, [NextFrame], true, GOOD);
            && Runs(r) && !r.pace.pending && r.deferred == Nothing && r.gpu == v.gpu && r.canvas == v.canvas
            && r.hist.latest == v.hist.latest && r.hist.kept == v.hist.kept && r.hist.wire == v.hist.wire
  {
    TwoPixels(px, px);
    assert CountNextFrames([NextFrame]) == 1;
    hide Verdict, DiffPixels;
  }

  lemma PolledNext(s: System)
    requires Up(s) && !s.view.pace.pending && s.net.ctl == [RequestRecord(NextFrame)]
    ensures Polled(s, 0, [REQUEST_SIZE], StillUp, GOOD)
            == Moved(s.(net := s.net.(ctl := [])), PollSocket(s.view, None, [NextFrame], true, GOOD))
  {
    hide Reachable, PollSocket;
    var r := Read(false, s.net, 0, [REQUEST_SIZE], StillUp);
    assert r == Reading(None, [NextFrame], 1, 0, true);
    assert AfterRead(s, r) == s.(net := s.net.(ctl := []));
  }

  lemma BlitSpoils(s: System, c: seq<byte>, garbage: seq<byte>) returns (t: System)
    requires Up(s) && !s.view.pace.pending && !s.view.pace.credit && s.view.deferred == Nothing
    requires s.view.gpu.inflight.None? && |c| == |garbage| == 8 && s.net.frames == [] && s.net.ctl == []
    requires s.view.gpu.bufs == Buffers(FirstObject(c).(author := ByGame), FRESH)
    requires s.screen.Current() == S.Slot(S.Shared(S.StagedBo(Main, 1)), 2, 1, false, false)
    ensures Up(t) && t.screen == s.screen && t.net == s.net && t.view.canvas == s.view.canvas
    ensures t.view.mode == s.view.mode && !t.view.pace.pending && t.view.deferred == Pixels(Image(2, 1, c))
    ensures t.view.gpu.inflight.None? && t.view.hist.latest == Some(Image(2, 1, c)) && t.view.hist.kept
    ensures OnScreen(t) == Some(Image(2, 1, garbage))
  {
    hide Reachable;
    var info := Capture(c, 3);
    CaptureIs(c, 3);
    SpoiledView(s.view, info, garbage);
    var r := OnAcceleratedPaint(s.view, true, info, DIRTY, Spoiling(garbage));
    t := CallsBack(s, Accelerate(true, info, DIRTY, Spoiling(garbage)), r);
  }

  lemma Skips(s: System, c: seq<byte>) returns (t: System)
    requires Up(s) && s.view.mode.roiEnabled && !s.view.pace.pending && |c| == 8
    requires s.view.deferred == Pixels(Image(2, 1, c)) && s.net.frames == [] && s.net.ctl == []
    requires s.view.canvas.baselineValid && s.view.canvas.shadow == Some(Image(2, 1, c)) && s.view.gpu.inflight.None?
    ensures Up(t) && t.screen == s.screen && !t.view.pace.pending && t.view.deferred == Nothing
    ensures t.view.canvas == s.view.canvas
    ensures t.view.hist.latest == s.view.hist.latest && t.view.hist.kept == s.view.hist.kept
    ensures OnScreen(t) == OnScreen(s)
  {
    hide WellFormed, Reachable, PollSocket;
    var q := Asking(s);
    SkippedView(q.view, c);
    PolledNext(q);
    StepIsPoll(q, Poll(0, [REQUEST_SIZE], StillUp, GOOD));
    hide Polled, Stepped;
    t := ReachStep(q, Poll(0, [REQUEST_SIZE], StillUp, GOOD));
  }

  /** With rectangles on, an unchanged capture is not sent again although its own
      failed blit went over the picture on screen: the view is at rest, and the
      newest paint neither kept nor shown. */
  lemma NewestNotShown(a: seq<byte>, b: seq<byte>, c: seq<byte>, garbage: seq<byte>) returns (t: System)
    requires |a| == |b| == |c| == |garbage| == 8 && b != c && garbage != c
    ensures Up(t) && AtRest(t.view) && t.view.hist.latest == Some(Image(2, 1, c)) && !t.screen.collided
    ensures t.view.canvas.baselineValid && OnScreen(t) == Some(Image(2, 1, garbage))
    ensures !Displays(t, Image(2, 1, c))
  {
    hide WellFormed, Reachable, Runs, OnScreen;
    t := ThirdResent(a, b, c, true);
    t := Uploading(t, c);
    t := Settles(t);
    t := BlitSpoils(t, c, garbage);
    t := Skips(t, c);
    UpConnected(t);
  }

  lemma UpConnected(s: System)
    requires Up(s)
    ensures s.view.link.connected && s.screen.Valid()
  {
  }

  // ----- A size that does not arrive -----

  /** The acknowledgement with the new size cannot be sent; the view, connected
      again and at rest, renders at the old one. */
  lemma SizeLostHappens(px: seq<byte>) returns (t: System)
    requires |px| == 8
    ensures Reachable(t) && t.view.link.connected && t.net.alive && !t.view.pace.pending && t.view.deferred == Nothing
    ensures Acks(t.net.ctl) == [] && t.game.notified && !t.game.sizePending && t.game.sizeLost
    ensures t.game.w == 640 && t.game.h == 480 && t.view.mode.renderW == 2 && t.view.mode.renderH == 1
  {
    hide WellFormed, Reachable;
    var s := FirstSent(px, false);
    s := Unanswered(s);
    t := Reconnected(s);
  }

  lemma Unanswered(s: System) returns (t: System)
    requires Sending(s, DmaStaged(2, 1, 2, Main, 1)) && s.screen == S.BLANK
    ensures Reachable(t) && WellFormed(t) && t.view == s.view && t.net == s.net.(frames := [])
    ensures t.game == Game(640, 480, true, false, true)
  {
    var r := ReachStep(s, GameResizes(640, 480));
    var a := GameTurn(1, false, AS_IMAGE, true, false);
    assert Inbox(r.net)[..1] == [DmaStaged(2, 1, 2, Main, 1)] && r.net.frames[1..] == [];
    StepIsTurn(r, a);
    hide WellFormed, Reachable, Stepped;
    t := ReachStep(r, a);
  }

  lemma Reconnected(s: System) returns (t: System)
    requires Reachable(s) && WellFormed(s) && s.view.link.connected && s.game.sizeLost
    ensures Reachable(t) && t.view.link.connected && t.net.alive && !t.view.pace.pending && t.view.deferred == Nothing
    ensures Acks(t.net.ctl) == [] && t.game == s.game && t.view.mode == s.view.mode
  {
    hide WellFormed, Reachable;
    t := ReachStep(s, LinkFails(true));
    t := ReachStep(t, Task(false, false));
    t := ReachStep(t, Task(true, true));
  }
}
