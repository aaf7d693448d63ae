/** Where the promises of the pipeline end, told exactly: when a direct paint is
    lost, what a dirty-only blit after a forwarded frame starts from, which frames
    are accepted without their buffer being shown, and what holds while no memory
    object is imported. */
module Limits {
  import opened Bytes
  import opened DirtyRoi
  import opened GpuBuf
  import opened ControlWire
  import opened ViewState
  import opened ViewFacts
  import opened Pipeline
  import opened PipelineFacts
  import opened PipelineRuns
  import S = Screen

  // ----- Direct paints -----

  /** A view paint that arrives at a ready view keeps nothing back, so it
      survives exactly if its send goes through or it changes nothing. */
  lemma DirectPaintKept(v: ViewState, next: Image, dirty: seq<DirtyRect>, sendOk: bool)
    requires Facts(v) && v.link.connected && !Busy(v) && next.Valid()
    requires v.hist.kept && Honest(v.hist.latest, next, dirty)
    ensures var r := DirectPixels(WithLatest(v, next), next, dirty, SentWhole(v, next, dirty), sendOk);
            Kept(r, next) <==> sendOk || v.hist.latest == Some(next)
  {
    DirectPixelsKeeps(v, next, dirty, sendOk);
  }

  // ----- Partial staging -----

  /** A ready view whose staging fails before it touches the buffer, so that it
      sends CEF's own buffer. */
  predicate Forwards(v: ViewState, info: Accelerated, env: Env) {
    && v.link.connected && v.link.visible && !Busy(v) && v.OnDma()
    && info.Valid() && info.Sized() && 1 <= info.planes <= 4 && info.counter.Some?
    && (v.pace.needsFull || !info.hasUpdateRect || (info.updateW > 0 && info.updateH > 0))
    && !env.blit.current && env.sendOk
  }

  /** The view once that frame was accepted and the next one asked for. */
  ghost function Resumed(v: ViewState, info: Accelerated, dirty: seq<DirtyRect>, env: Env): (r: ViewState)
    requires Fits(v) && info.Valid()
    ensures Fits(r)
  {
    TakeRequests(ProcessAck(OnAcceleratedPaint(v, true, info, dirty, env), AckMsg(Accepted, 0, 0), env.readOk),
                 [NextFrame], true)
  }

  lemma ForwardedLeavesBase(v: ViewState, info: Accelerated, dirty: seq<DirtyRect>, env: Env)
    requires Facts(v) && Forwards(v, info, env)
    ensures OnAcceleratedPaint(v, true, info, dirty, env).hist.wire == v.hist.wire + [DmaForwarded(info.w, info.h)]
    ensures var c := Resumed(v, info, dirty, env);
            && c.link == v.link && c.OnDma() && !Busy(c) && c.gpu.bufs == v.gpu.bufs && c.gpu.inflight.None?
            && !c.pace.needsFull && c.pace.counter == info.counter && !c.hist.based
  {
    var l := Captured(v, info);
    var r := StageInto(l, info, dirty, !CanBlitDirty(l, info), env.blit);
    assert !r.1 && r.0.gpu.bufs == v.gpu.bufs;
    assert CountNextFrames([NextFrame]) == 1;
  }

  /** A capture that may be staged by its dirty rectangles after this one. */
  predicate Continues(info: Accelerated, next: Accelerated) {
    && next.Valid() && next.Sized() && Follows(info.counter, next)
    && next.hasUpdateRect && next.updateW > 0 && next.updateH > 0
    && next.visibleX == 0 && next.visibleY == 0 && next.codedW == next.w && next.codedH == next.h
  }

  /** The next capture is blitted onto whatever the buffer held before the
      forwarded one, so what is sent is that capture if and only if the blit was
      a full one after all or this old image agrees with it outside its list. */
  lemma ForwardedThenDirtyIff(v: ViewState, info: Accelerated, dirty: seq<DirtyRect>, env: Env, next: Accelerated,
                              nextDirty: seq<DirtyRect>, nextEnv: Env)
    requires Facts(v) && Forwards(v, info, env) && Continues(info, next) && nextEnv.sendOk
    requires BlitOf(v.gpu.bufs.main, next, nextDirty, false, nextEnv.blit).1
    ensures var r := OnAcceleratedPaint(Resumed(v, info, dirty, env), true, next, nextDirty, nextEnv);
            && r.gpu.inflight.Some? && r.gpu.inflight.value.b == Main
            && (r.gpu.inflight.value.image == next.Picture() <==>
                  || !BlitOf(v.gpu.bufs.main, next, nextDirty, false, nextEnv.blit).0.partial
                  || CanvasesAgree(v.gpu.bufs.main.image, next.Picture().px, next.w, next.h, nextDirty))
  {
    ForwardedLeavesBase(v, info, dirty, env);
    var c := Resumed(v, info, dirty, env);
    var l := Captured(c, next);
    assert CanBlitDirty(l, next);
    DirtySent(c, next, nextDirty, nextEnv);
    ExportHoldsIff(v.gpu.bufs.main, next.planes, next.texture, next.w, next.h, nextDirty, false, nextEnv.blit);
  }

  /** What a staged direct capture sends is what the blit left in the buffer. */
  lemma DirtySent(c: ViewState, next: Accelerated, dirty: seq<DirtyRect>, env: Env)
    requires Fits(c) && c.link.connected && c.link.visible && !Busy(c) && c.OnDma() && c.gpu.inflight.None?
    requires next.Valid() && next.Sized() && CanBlitDirty(c, next) && next.updateW > 0 && next.updateH > 0
    requires BlitOf(c.gpu.bufs.main, next, dirty, false, env.blit).1 && env.sendOk
    ensures OnAcceleratedPaint(c, true, next, dirty, env).gpu.inflight
            == Some(Held(Main, Image(next.w, next.h, BlitOf(c.gpu.bufs.main, next, dirty, false, env.blit).0.image)))
  {
    var l := Captured(c, next);
    var r := StageInto(l, next, dirty, false, env.blit);
    assert r.1 && r.0.gpu.bufs.main == BlitOf(c.gpu.bufs.main, next, dirty, false, env.blit).0;
  }

  // ----- Buffer identifiers -----

  /** The first export of either staging buffer carries identifier 2. */
  lemma FirstExportIsTwo(planes: int, texture: seq<byte>, w: nat, h: nat, dirty: seq<DirtyRect>, full: bool,
                         env: BlitEnv)
    requires w > 0 && h > 0 && |texture| == w * h * 4
    requires BlitAndExport(FRESH, planes, texture, w, h, dirty, full, env).1
    ensures BlitAndExport(FRESH, planes, texture, w, h, dirty, full, env).0.generation == 2
  {
  }

  /** The buffer object that the frames accepted so far have put on screen to be
      found again by its identifier, and whether its texture was deleted. */
  datatype Cached = Empty | Holding(buffer: BufName, serial: nat, deleted: bool)

  predicate SameId(c: Cached, f: Frame) {
    c.Holding? && f.DmaStaged? && Identifier(c.serial) == Identifier(f.serial)
  }

  function AfterShow(c: Cached, f: Frame, accepted: bool): Cached {
    if !accepted || SameId(c, f) then c
    else if f.DmaStaged? then Holding(f.buffer, f.serial, false)
    else Empty
  }

  /** The frame of a turn that is shown. */
  function Offered(s: System, a: Action): Option<Frame> {
    if a.GameTurn? && 0 < a.n <= |Inbox(s.net)| then Some(Inbox(s.net)[0]) else None
  }

  predicate TurnAccepts(s: System, a: Action)
    requires WellFormed(s)
  {
    a.GameTurn? && 0 < a.n <= |Inbox(s.net)| && S.Turn(s.screen, Inbox(s.net)[..a.n], a.lost, a.gl).1
  }

  function AfterStep(c: Cached, s: System, a: Action): Cached
    requires WellFormed(s)
  {
    if Offered(s, a).Some? then AfterShow(c, Offered(s, a).value, TurnAccepts(s, a))
    else if a.TextureFails? && c.Holding? then c.(deleted := true)
    else c
  }

  ghost function CacheAt(states: seq<System>, actions: seq<Action>, k: nat): Cached
    requires Run(states, actions) && k < |states|
  {
    if k == 0 then Empty else AfterStep(CacheAt(states, actions, k - 1), states[k - 1], actions[k - 1])
  }

  /** The frame repeats the identifier of another buffer object, or of one whose
      texture is gone. */
  predicate Collides(c: Cached, f: Frame) {
    SameId(c, f) && (c.deleted || c.buffer != f.buffer || c.serial != f.serial)
  }

  predicate TurnCollides(c: Cached, s: System, a: Action) {
    Offered(s, a).Some? && Collides(c, Offered(s, a).value)
  }

  /** The turn accepts a staged frame whose buffer is then not on screen. */
  predicate ShowsWrong(s: System, a: Action)
    requires WellFormed(s)
  {
    && TurnAccepts(s, a) && Inbox(s.net)[0].DmaStaged?
    && S.Turn(s.screen, Inbox(s.net)[..a.n], a.lost, a.gl).0.Current().tex
       != S.Shared(S.StagedBo(Inbox(s.net)[0].buffer, Inbox(s.net)[0].serial))
  }

  /** The screen has what the frames accepted so far say. */
  predicate Reflects(c: Cached, s: S.Screen)
    requires s.Valid()
  {
    match c
    case Empty => s.cacheId == 0
    case Holding(buffer, serial, deleted) =>
      && s.cacheId == Identifier(serial)
      && s.Current().tex == if deleted then S.NoTexture else S.Shared(S.StagedBo(buffer, serial))
  }

  lemma ShowReflects(c: Cached, s: S.Screen, f: Frame, env: S.ShowEnv)
    requires s.Valid() && Reflects(c, s) && S.FrameValid(f)
    ensures var r := S.Show(s, f, env);
            && Reflects(AfterShow(c, f, r.1), r.0)
            && r.0.collided == (if r.1 then Collides(c, f) else s.collided)
            && (r.1 && f.DmaStaged? ==>
                  (r.0.Current().tex != S.Shared(S.StagedBo(f.buffer, f.serial)) <==> Collides(c, f)))
  {
  }

  lemma TurnReflects(c: Cached, s: System, a: Action)
    requires WellFormed(s) && Enabled(s, a) && Offered(s, a).Some? && Reflects(c, s.screen)
    ensures var t := S.Turn(s.screen, Inbox(s.net)[..a.n], a.lost, a.gl).0;
            && Reflects(AfterStep(c, s, a), t)
            && t.collided == (if TurnAccepts(s, a) then TurnCollides(c, s, a) else s.screen.collided)
            && (ShowsWrong(s, a) <==> TurnAccepts(s, a) && TurnCollides(c, s, a))
  {
    assert Inbox(s.net)[..a.n][0] == Inbox(s.net)[0] && Inbox(s.net)[0] in Inbox(s.net);
    ShowReflects(c, S.Keep(s.screen, a.lost), Inbox(s.net)[0], S.Bare(a.gl, a.lost));
  }

  /** What a step makes of the screen: a turn, a deletion, or at most a frame
      taken away. */
  predicate ScreenMoves(s: System, a: Action, t: S.Screen)
    requires WellFormed(s) && Enabled(s, a)
  {
    if a.GameTurn? then t == S.Turn(s.screen, Inbox(s.net)[..a.n], a.lost, a.gl).0
    else if a.TextureFails? then t == S.Killed(s.screen)
    else t == s.screen.(hasFrame := t.hasFrame)
  }

  lemma SteppedScreen(s: System, a: Action)
    requires WellFormed(s) && Enabled(s, a)
    ensures ScreenMoves(s, a, Stepped(s, a).screen)
  {
    if IsCallback(a) || a.Poll? || a.Task? {
      ViewStepScreen(s, a);
    }
  }

  lemma ViewStepScreen(s: System, a: Action)
    requires WellFormed(s) && Enabled(s, a) && (IsCallback(a) || a.Poll? || a.Task?)
    ensures Stepped(s, a).screen == s.screen
  {
  }

  lemma StepReflects(c: Cached, s: System, a: Action, t: S.Screen)
    requires WellFormed(s) && Enabled(s, a) && Reflects(c, s.screen) && ScreenMoves(s, a, t)
    ensures t.Valid() && Reflects(AfterStep(c, s, a), t)
    ensures t.collided == if TurnAccepts(s, a) then TurnCollides(c, s, a) else s.screen.collided
  {
    if Offered(s, a).Some? {
      TurnReflects(c, s, a);
    }
  }

  lemma {:induction false} RunReflects(states: seq<System>, actions: seq<Action>, k: nat)
    requires Run(states, actions) && k < |states|
    ensures states[k].screen.Valid() && Reflects(CacheAt(states, actions, k), states[k].screen)
  {
    if k > 0 {
      RunReflects(states, actions, k - 1);
      SteppedScreen(states[k - 1], actions[k - 1]);
      StepReflects(CacheAt(states, actions, k - 1), states[k - 1], actions[k - 1], states[k].screen);
    }
  }

  /** In every run a turn accepts a frame without showing its buffer exactly if
      the frame repeats the identifier of the buffer object imported last, and is
      not that object or finds its texture deleted. */
  lemma WrongBufferIff(states: seq<System>, actions: seq<Action>, k: nat)
    requires Run(states, actions) && k < |actions|
    ensures WellFormed(states[k])
    ensures ShowsWrong(states[k], actions[k])
            <==> TurnAccepts(states[k], actions[k]) && TurnCollides(CacheAt(states, actions, k), states[k], actions[k])
  {
    RunReflects(states, actions, k);
    if Offered(states[k], actions[k]).Some? {
      TurnReflects(CacheAt(states, actions, k), states[k], actions[k]);
    }
  }

  /** The turn accepted last before k collided. */
  ghost predicate LastCollides(states: seq<System>, actions: seq<Action>, k: nat)
    requires Run(states, actions) && k < |states|
  {
    k > 0 &&
      if TurnAccepts(states[k - 1], actions[k - 1])
      then TurnCollides(CacheAt(states, actions, k - 1), states[k - 1], actions[k - 1])
      else LastCollides(states, actions, k - 1)
  }

  /** And the wrong buffer stays on screen until the next accepted frame. */
  lemma {:induction false} CollidedIff(states: seq<System>, actions: seq<Action>, k: nat)
    requires Run(states, actions) && k < |states|
    ensures states[k].screen.collided <==> LastCollides(states, actions, k)
  {
    hide WellFormed, Enabled, Stepped, Reflects;
    if k > 0 {
      CollidedIff(states, actions, k - 1);
      RunReflects(states, actions, k - 1);
      SteppedScreen(states[k - 1], actions[k - 1]);
      StepReflects(CacheAt(states, actions, k - 1), states[k - 1], actions[k - 1], states[k].screen);
    }
  }

  // ----- Imported memory -----

  predicate ImagesOnly(a: Action) {
    a.GameTurn? ==> a.gl.imported != S.ViaMemoryObject
  }

  /** No texture is over imported memory that uploads would reach. */
  predicate AllOwn(s: S.Screen)
    requires s.Valid()
  {
    !S.Foreign(s.slots[0]) && !S.Foreign(s.slots[1])
  }

  lemma ShowKeepsOwn(s: S.Screen, f: Frame, env: S.ShowEnv)
    requires s.Valid() && AllOwn(s) && S.FrameValid(f) && env.imported != S.ViaMemoryObject
    ensures AllOwn(S.Show(s, f, env).0) && S.Uploads(s, f, env) == []
  {
  }

  lemma TurnKeepsOwn(s: System, a: Action)
    requires WellFormed(s) && Enabled(s, a) && a.GameTurn? && AllOwn(s.screen) && ImagesOnly(a)
    ensures AllOwn(S.Turn(s.screen, Inbox(s.net)[..a.n], a.lost, a.gl).0) && Upload(s, a) == []
  {
    var batch := Inbox(s.net)[..a.n];
    if batch != [] {
      assert batch[0] in Inbox(s.net);
      ShowKeepsOwn(S.Keep(s.screen, a.lost), batch[0], S.Bare(a.gl, a.lost));
    }
  }

  lemma SteppedOwn(s: System, a: Action)
    requires WellFormed(s) && Enabled(s, a) && AllOwn(s.screen) && ImagesOnly(a)
    ensures Stepped(s, a).screen.Valid() && AllOwn(Stepped(s, a).screen) && !Spoils(s, a)
  {
    SteppedScreen(s, a);
    hide Stepped, WellFormed;
    if a.GameTurn? {
      TurnKeepsOwn(s, a);
    }
  }

  lemma {:induction false} RunOwn(states: seq<System>, actions: seq<Action>, k: nat)
    requires Run(states, actions) && k < |states| && forall j | 0 <= j < k :: ImagesOnly(actions[j])
    ensures states[k].screen.Valid() && AllOwn(states[k].screen)
    ensures forall j | 0 <= j < k :: !Spoils(states[j], actions[j])
  {
    RunKeeps(states, actions, k);
    if k > 0 {
      RunOwn(states, actions, k - 1);
      RunKeeps(states, actions, k - 1);
      SteppedOwn(states[k - 1], actions[k - 1]);
    }
  }

  /** As long as only images are imported, every buffer that a pointer names has
      the pixels it was recorded with, and the canvas is the snapshot with no
      exception but a deleted texture. */
  lemma MirrorIsExact(states: seq<System>, actions: seq<Action>, k: nat)
    requires Run(states, actions) && k < |states| && forall j | 0 <= j < k :: ImagesOnly(actions[j])
    ensures Intact(states[k].view) && states[k].screen.Valid()
    ensures var v, cur := states[k].view, states[k].screen.Current();
            v.link.connected && v.canvas.baselineValid && !v.pace.pending ==>
              cur.tex == S.NoTexture || (cur.tex.Own? && v.canvas.shadow == Some(Image(cur.w, cur.h, cur.tex.px)))
  {
    RunOwn(states, actions, k);
    SparedRun(states, actions, k);
    RunKeeps(states, actions, k);
    assert AllOwn(states[k].screen);
  }

  /** And if also no frame collides, the newest paint is kept, under way, or on
      screen unless GL deleted the texture. */
  lemma NewestIsDisplayed(states: seq<System>, actions: seq<Action>, k: nat)
    requires Run(states, actions) && k < |states| && forall j | 0 <= j < k :: ImagesOnly(actions[j])
    requires forall j | 0 <= j < k :: !TurnCollides(CacheAt(states, actions, j), states[j], actions[j])
    requires var s := states[k]; s.view.link.connected && s.net.alive && s.view.hist.kept && s.view.hist.latest.Some?
    ensures var s, newest := states[k], states[k].view.hist.latest.value;
            && s.screen.Valid()
            && (|| Shows(s.view.gpu.bufs, s.view.deferred, newest)
                || (s.view.pace.pending && s.view.deferred == Nothing && s.view.hist.sentImg == newest)
                || Displays(s, newest)
                || s.screen.Current().tex == S.NoTexture)
  {
    RunOwn(states, actions, k);
    NoLostUpdate(states, actions, k);
    NeverCollided(states, actions, k);
  }

  lemma {:induction false} NeverCollided(states: seq<System>, actions: seq<Action>, k: nat)
    requires Run(states, actions) && k < |states|
    requires forall j | 0 <= j < k :: !TurnCollides(CacheAt(states, actions, j), states[j], actions[j])
    ensures !states[k].screen.collided
  {
    hide WellFormed, Enabled, Stepped, Reflects;
    if k > 0 {
      NeverCollided(states, actions, k - 1);
      RunReflects(states, actions, k - 1);
      SteppedScreen(states[k - 1], actions[k - 1]);
      StepReflects(CacheAt(states, actions, k - 1), states[k - 1], actions[k - 1], states[k].screen);
    }
  }
}
