/** Exactly when the canvas on screen is the view's snapshot: the steps that put
    it there, and the one kind of step that takes it away. */
module Mirror {
  import opened Bytes
  import opened DirtyRoi
  import opened GpuBuf
  import opened ControlWire
  import opened ControlStream
  import opened PollFacts
  import opened ViewState
  import opened ViewFacts
  import opened ViewSends
  import opened Pipeline
  import opened PipelineFacts
  import opened PipelineRuns
  import S = Screen

  // ----- What is relied on -----

  /** Of the picture on screen: nothing, that it is the snapshot, or that the
      rectangle under way makes it the snapshot. */
  datatype Claim = NoClaim | IsSnapshot | Completes(frame: Frame)

  function ClaimOf(v: ViewState, net: Net): Claim {
    if !v.link.connected then NoClaim
    else if !v.pace.pending then
      if v.canvas.baselineValid || (AtRest(v) && v.canvas.lastSentShm) then IsSnapshot else NoClaim
    else if net.frames != [] && net.frames[0].ShmRect? then Completes(net.frames[0])
    else if v.canvas.lastSentShm && Accepts(Acks(net.ctl)) then IsSnapshot
    else NoClaim
  }

  predicate Meets(c: Claim, shown: Option<Image>, snapshot: Option<Image>) {
    match c
    case NoClaim => true
    case IsSnapshot => shown == snapshot
    case Completes(f) => f.ShmRect? && RectMoves(shown, f.w, f.h, f.packet, snapshot)
  }

  /** The texture has its own pixels, or samples a buffer object of the view that
      has the size the texture was announced with. */
  predicate Followed(s: System)
    requires s.screen.Valid()
  {
    var cur := s.screen.Current();
    match cur.tex
    case NoTexture => false
    case Own(_) => true
    case Shared(src) =>
      && src.StagedBo?
      && var o := Object(s.view.gpu.bufs, s.gone, src); o.Some? && o.value.w == cur.w && o.value.h == cur.h
  }

  /** The snapshot is due on screen. */
  predicate Due(s: System) {
    ClaimOf(s.view, s.net) == IsSnapshot
  }

  /** What is relied on holds, on screen and without exception. */
  predicate Exact(s: System)
    requires s.screen.Valid()
  {
    Followed(s) ==> Meets(ClaimOf(s.view, s.net), OnScreen(s), s.view.canvas.shadow)
  }

  // ----- The blit of a step -----

  /** Does the callback try to stage the paint? */
  predicate Stages(v: ViewState, a: Action) {
    && a.Accelerate? && a.isView && v.link.connected && v.link.visible && a.info.Sized()
    && (|| Busy(v)
        || (v.OnDma() && (v.pace.needsFull || !a.info.hasUpdateRect || (a.info.updateW > 0 && a.info.updateH > 0))))
  }

  /** The target buffer after that. */
  function AfterBlit(v: ViewState, a: Action): Staged
    requires Fits(v) && Stages(v, a) && a.info.Valid()
  {
    var was := v.gpu.bufs.At(Target(v));
    if Busy(v) then BlitOf(was, a.info, [], true, a.env.blit).0
    else BlitOf(was, a.info, a.dirty, !CanBlitDirty(v, a.info), a.env.blit).0
  }

  function BufsAfter(v: ViewState, a: Action): Buffers
    requires Fits(v) && (a.Accelerate? ==> a.info.Valid())
  {
    if Stages(v, a) then v.gpu.bufs.With(Target(v), AfterBlit(v, a)) else v.gpu.bufs
  }

  lemma SendsNoBlit(v: ViewState, env: Env)
    requires Fits(v)
    ensures MaybeSendDeferred(v, env).gpu.bufs == v.gpu.bufs
  {
  }

  lemma DeferBlits(v: ViewState, info: Accelerated, env: Env)
    requires Fits(v) && info.Valid()
    ensures DeferCapture(v, info, env).gpu.bufs ==
              if info.Sized() then
                v.gpu.bufs.With(Target(v), BlitOf(v.gpu.bufs.At(Target(v)), info, [], true, env.blit).0)
              else v.gpu.bufs
  {
    SendsNoBlit(MarkDropped(CacheDeferredGpu(v, info, env)), env);
  }

  lemma DirectBlits(v: ViewState, info: Accelerated, dirty: seq<DirtyRect>, whole: bool, env: Env)
    requires Fits(v) && v.link.connected && !v.pace.pending && v.deferred == Nothing && info.Valid()
    ensures DirectCapture(v, info, dirty, whole, env).gpu.bufs ==
              if info.Sized() && v.OnDma() then
                var was := v.gpu.bufs.At(Target(v));
                v.gpu.bufs.With(Target(v), BlitOf(was, info, dirty, !CanBlitDirty(v, info), env.blit).0)
              else v.gpu.bufs
  {
  }

  /** A callback changes the staging buffers by its blit and by nothing else. */
  lemma CallbackBlits(v: ViewState, a: Action)
    requires Fits(v) && IsCallback(a)
    requires a.Paint? ==> a.w < INT_LIMIT && a.h < INT_LIMIT
                          && (a.source.Some? && a.w > 0 && a.h > 0 ==> |a.source.value| == a.w * a.h * 4)
    requires a.Accelerate? ==> a.info.Valid()
    ensures ViewAfter(v, a).gpu.bufs == BufsAfter(v, a)
  {
    match a
    case Paint(isView, source, w, h, dirty, env) => PaintBlitsNothing(v, isView, source, w, h, dirty, env);
    case Accelerate(isView, info, dirty, env) => AccelerateBlits(v, a);
    case Visibility(show) =>
    case PageLoaded(_, _) =>
  }

  lemma PaintBlitsNothing(v: ViewState, isView: bool, source: Option<seq<byte>>, w: int, h: int, dirty: seq<DirtyRect>,
                          env: Env)
    requires Fits(v) && w < INT_LIMIT && h < INT_LIMIT
    requires source.Some? && w > 0 && h > 0 ==> |source.value| == w * h * 4
    ensures OnPaint(v, isView, source, w, h, dirty, env).gpu.bufs == v.gpu.bufs
  {
  }

  lemma AccelerateBlits(v: ViewState, a: Action)
    requires Fits(v) && a.Accelerate? && a.info.Valid()
    ensures ViewAfter(v, a).gpu.bufs == BufsAfter(v, a)
  {
    var l := Captured(v, a.info);
    if a.isView && v.link.connected && v.link.visible {
      if Busy(v) {
        DeferBlits(l, a.info, a.env);
      } else {
        DirectBlits(l, a.info, a.dirty, CaptureWhole(v, a.info, a.dirty, a.env), a.env);
      }
    }
  }

  /** The buffer object on screen as the blit of this step leaves it. */
  function Leaves(s: System, a: Action): Option<Staged>
    requires WellFormed(s) && Enabled(s, a)
  {
    var tex := s.screen.Current().tex;
    if Stages(s.view, a) && tex.Shared? && tex.source.StagedBo? && tex.source.buffer == Target(s.view)
       && AfterBlit(s.view, a).present && AfterBlit(s.view, a).serial == tex.source.serial
    then Some(AfterBlit(s.view, a)) else None
  }

  /** Told before the step: its blit goes into the memory on screen, and what it
      leaves there is not what is relied on from then on. */
  ghost predicate PaintsOver(s: System, a: Action)
    requires WellFormed(s) && Enabled(s, a)
  {
    Leaves(s, a).Some?
    && var cur, o, r := s.screen.Current(), Leaves(s, a).value, ViewAfter(s.view, a);
       && o.w == cur.w && o.h == cur.h
       && !Meets(ClaimOf(r, Carry(s.net, s.view, r)), Some(Image(o.w, o.h, o.image)), r.canvas.shadow)
  }

  // ----- The picture on screen, step by step -----

  lemma ObjectAfter(gone: map<S.Source, Staged>, was: Buffers, b: BufName, o: Staged, src: S.Source)
    ensures var now := was.With(b, o);
            Object(now, Retire(gone, was, now), src)
            == if src == S.StagedBo(b, o.serial) && o.present then Some(o) else Object(was, gone, src)
  {
  }

  lemma UnblittedShows(s: System, r: ViewState)
    requires s.screen.Valid() && r.gpu.bufs == s.view.gpu.bufs
    ensures var t := Moved(s, r); Followed(t) == Followed(s) && OnScreen(t) == OnScreen(s)
  {
  }

  /** After a callback the texture shows what the blit left, if it went there,
      and otherwise what it showed before. */
  lemma CallbackShows(s: System, a: Action)
    requires WellFormed(s) && Enabled(s, a) && IsCallback(a)
    ensures var t, cur, o := Moved(s, ViewAfter(s.view, a)), s.screen.Current(), Leaves(s, a);
            if o.None? then Followed(t) == Followed(s) && OnScreen(t) == OnScreen(s)
            else && OnScreen(t) == Some(Image(o.value.w, o.value.h, o.value.image))
                 && (Followed(t) <==> o.value.w == cur.w && o.value.h == cur.h)
  {
    CallbackBlits(s.view, a);
    var r := ViewAfter(s.view, a);
    hide ViewAfter, Retire, Fits;
    if Stages(s.view, a) {
      if s.screen.Current().tex.Shared? {
        ObjectAfter(s.gone, s.view.gpu.bufs, Target(s.view), AfterBlit(s.view, a), s.screen.Current().tex.source);
      }
    } else {
      UnblittedShows(s, r);
    }
  }

  /** What a callback that sends at most one frame relies on follows from what was
      relied on before. */
  lemma ClaimMoves(s: System, r: ViewState, shown: Option<Image>)
    requires Inv(s) && Sends(s.view, r) && Rests(s.view, r)
    requires Meets(ClaimOf(s.view, s.net), shown, s.view.canvas.shadow)
    ensures Meets(ClaimOf(r, Carry(s.net, s.view, r)), shown, r.canvas.shadow)
  {
    var v := s.view;
    hide WellFormed, Facts, Pictures;
    if !Quiet(v, r) {
      var f := r.hist.wire[|r.hist.wire| - 1];
      assert r.hist.wire[|v.hist.wire|..] == [f];
    }
  }

  /** A callback keeps it exactly if it does not paint over it. */
  lemma CallbackExact(s: System, a: Action)
    requires Inv(s) && Enabled(s, a) && IsCallback(a) && Exact(s)
    ensures Exact(Moved(s, ViewAfter(s.view, a))) <==> !PaintsOver(s, a)
  {
    CallbackShows(s, a);
    CallbackSends(s, a);
    var r := ViewAfter(s.view, a);
    if Leaves(s, a).None? && Followed(s) {
      ClaimMoves(s, r, OnScreen(s));
    }
  }

  lemma CallbackSends(s: System, a: Action)
    requires Inv(s) && Enabled(s, a) && IsCallback(a)
    ensures var r := ViewAfter(s.view, a); Facts(r) && Sends(s.view, r) && Rests(s.view, r)
  {
    var v := s.view;
    match a
    case Paint(isView, source, w, h, dirty, env) =>
      OnPaintKeeps(v, isView, source, w, h, dirty, env);
      OnPaintSends(v, isView, source, w, h, dirty, env);
      OnPaintRests(v, isView, source, w, h, dirty, env);
    case Accelerate(isView, info, dirty, env) =>
      OnAcceleratedPaintKeeps(v, isView, info, dirty, env);
      OnAcceleratedPaintSends(v, isView, info, dirty, env);
      OnAcceleratedPaintRests(v, isView, info, dirty, env);
    case Visibility(show) =>
      SetOverlayVisibleKeeps(v, show);
      SetOverlayVisibleQuiet(v, show);
      SetOverlayVisibleRests(v, show);
    case PageLoaded(isMain, isBlank) => OnLoadEndKeeps(v, isMain, isBlank);
  }

  // ----- Polls -----

  lemma PollSendsNoBlit(v: ViewState, reqs: seq<Request>, up: bool, env: Env)
    requires Fits(v)
    ensures PollSocket(v, None, reqs, up, env).gpu.bufs == v.gpu.bufs
  {
    SendsNoBlit(TakeRequests(v, reqs, up), env);
  }

  /** Granting credit and sending what was kept. */
  lemma GrantExact(s: System, reqs: seq<Request>, up: bool, env: Env)
    requires Inv(s) && s.view.link.connected && Exact(s)
    ensures Exact(Moved(s, PollSocket(s.view, None, reqs, up, env)))
  {
    var r := PollSocket(s.view, None, reqs, up, env);
    GrantSends(s.view, reqs, up, env);
    PollSendsNoBlit(s.view, reqs, up, env);
    hide PollSocket, Facts;
    UnblittedShows(s, r);
    if Followed(s) {
      ClaimMoves(s, r, OnScreen(s));
    }
  }

  lemma AckClaims(v: ViewState, a: ViewState, ack: AckMsg, net: Net, next: Net, shown: Option<Image>)
    requires v.link.connected && v.pace.pending && Acknowledged(v, a, ack) && Flow(v, net)
    requires ack.code == Accepted ==> Accepts(Acks(net.ctl))
    requires Acks(net.ctl) != []
    requires Meets(ClaimOf(v, net), shown, v.canvas.shadow)
    ensures Meets(ClaimOf(a, next), shown, a.canvas.shadow)
  {
  }

  lemma AckExact(s: System, ack: Option<AckMsg>, next: Net, k: nat, readOk: bool)
    requires Inv(s) && Exact(s) && s.view.link.connected && ReadOff(s.net, next, k)
    requires ack.Some? ==> s.view.pace.pending
    requires Acks(s.net.ctl[..k]) == if ack.Some? then [ack.value] else []
    requires next.ctl == [] || ack.Some? || Acks(next.ctl) == Acks(s.net.ctl)
    ensures Exact(s.(view := TakeAck(s.view, ack, readOk), net := next))
  {
    var v, a := s.view, TakeAck(s.view, ack, readOk);
    AckMoves(s, ack, next, k, readOk);
    AcksSplit(s.net.ctl, k);
    hide Facts, Pictures;
    if ack.Some? && Followed(s) {
      ProcessAckAcknowledges(v, ack.value, readOk);
      assert Acks(s.net.ctl)[0] == ack.value;
      AckClaims(v, a, ack.value, s.net, next, OnScreen(s));
    }
  }

  lemma OpenPollExact(s: System, r: Reading, first: nat, avails: seq<nat>, hangup: Hangup, env: Env)
    requires Inv(s) && Exact(s) && s.view.link.connected
    requires r == Read(s.view.pace.pending, s.net, first, avails, hangup)
    ensures Exact(Moved(AfterRead(s, r), PollSocket(s.view, r.ack, r.reqs, r.up, env)))
  {
    hide PollSocket, TakeAck, Read, Exact;
    ReadTakes(s.view.pace.pending, s.net, first, avails, hangup);
    var t, a := AfterRead(s, r), TakeAck(s.view, r.ack, env.readOk);
    AcksSplit(s.net.ctl, r.k);
    AckMoves(s, r.ack, t.net, r.k, env.readOk);
    AckExact(s, r.ack, t.net, r.k, env.readOk);
    UncountedExact(s.(view := a, net := t.net), t.(view := a));
    SameInv(s.(view := a, net := t.net), t.(view := a));
    hide Facts, Pictures, WellFormed, AfterRead, Moved;
    GrantExact(t.(view := a), r.reqs, r.up, env);
    PolledIsMoved(t, a, r, env);
  }

  lemma SameInv(s: System, t: System)
    requires Inv(s) && t == s.(game := t.game)
    ensures Inv(t)
  {
    hide Facts, Pictures, Fits;
  }

  /** The sizes of the game do not matter to it. */
  lemma UncountedExact(s: System, t: System)
    requires s.screen.Valid() && t == s.(game := t.game) && Exact(s)
    ensures Exact(t)
  {
  }

  lemma PollExact(s: System, first: nat, avails: seq<nat>, hangup: Hangup, env: Env)
    requires Inv(s) && Exact(s)
    ensures Polled(s, first, avails, hangup, env).screen == s.screen && Exact(Polled(s, first, avails, hangup, env))
  {
    if s.view.link.connected && !s.net.open {
      GrantExact(s, [], false, env);
    } else if s.view.link.connected {
      OpenPollExact(s, Read(s.view.pace.pending, s.net, first, avails, hangup), first, avails, hangup, env);
    }
  }

  // ----- The game -----

  /** The turn shows a whole shared-memory frame of the newest connection, and
      accepts it. */
  predicate ShowsFull(s: System, a: Action)
    requires WellFormed(s) && Enabled(s, a)
  {
    && a.GameTurn? && a.n > 0 && !a.lost && s.net.atLive && s.net.frames[0].ShmFull? && s.view.link.connected
    && S.Show(S.Keep(s.screen, false), s.net.frames[0], a.gl).1
  }

  /** Whatever was on screen before. */
  lemma FullExact(s: System, n: nat, gl: S.ShowEnv, stable: bool, ackSent: bool)
    requires Inv(s) && s.view.link.connected && s.net.atLive && 0 < n <= |s.net.frames| && s.net.frames[0].ShmFull?
    requires S.Show(S.Keep(s.screen, false), s.net.frames[0], gl).1
    ensures var t := Turned(s, n, false, gl, stable, ackSent);
            && t.screen.Valid() && Exact(t)
            && (Followed(t) ==> OnScreen(t) == t.view.canvas.shadow == s.view.canvas.shadow)
  {
    DrawnView(s, n, false, gl);
    FullPictures(s, n, gl);
    FullFills(s, n, gl);
  }

  lemma FullIsSnapshot(s: System)
    requires Inv(s) && s.view.link.connected && s.net.frames != [] && s.net.frames[0].ShmFull?
    ensures var f := s.net.frames[0]; s.view.canvas.shadow == Some(Image(f.w, f.h, f.px))
  {
    hide Pictures, WellFormed;
  }

  lemma FullFills(s: System, n: nat, gl: S.ShowEnv)
    requires Inv(s) && s.view.link.connected && s.net.atLive && 0 < n <= |s.net.frames| && s.net.frames[0].ShmFull?
    requires S.Show(S.Keep(s.screen, false), s.net.frames[0], gl).1
    ensures var t, f := Drawn(s, n, false, gl), s.net.frames[0];
            && t.screen.Valid()
            && (Followed(t) ==> OnScreen(t) == Some(Image(f.w, f.h, f.px)))
            && s.view.canvas.shadow == Some(Image(f.w, f.h, f.px))
  {
    FullIsSnapshot(s);
    hide Facts, Pictures, Flow;
    var f, back := s.net.frames[0], s.screen.slots[1 - s.screen.idx];
    assert s.net.frames[..n][0] == f && S.Bare(gl, false) == gl && f in s.net.frames;
    if S.Foreign(back) && back.w == f.w && back.h == f.h && back.tex.source.StagedBo? {
      WrittenFull(s, back.tex.source, f, gl.smear);
    }
  }

  lemma RectExact(s: System, n: nat, gl: S.ShowEnv)
    requires Inv(s) && Exact(s) && s.view.link.connected && s.net.atLive && 0 < n <= |s.net.frames|
    requires s.net.frames[0].ShmRect? && S.Show(S.Keep(s.screen, false), s.net.frames[0], gl).1
    ensures var t := Drawn(s, n, false, gl);
            t.screen.Valid() && (Followed(t) ==> OnScreen(t) == s.view.canvas.shadow)
  {
    var f, cur := s.net.frames[0], s.screen.Current();
    assert s.net.frames[..n][0] == f && S.Bare(gl, false) == gl && f in s.net.frames;
    RectPictures(s, n, gl);
    if cur.tex.Shared? && cur.tex.source.StagedBo? {
      WrittenRect(s, cur.tex.source, f, gl.smear);
    }
  }

  /** A turn on the newest connection that shows a frame. */
  lemma LiveTurnExact(s: System, n: nat, gl: S.ShowEnv, stable: bool, ackSent: bool)
    requires Inv(s) && Exact(s) && s.view.link.connected && s.net.atLive && 0 < n <= |s.net.frames|
    ensures var t := Turned(s, n, false, gl, stable, ackSent); t.screen.Valid() && Exact(t)
  {
    var t, f := Turned(s, n, false, gl, stable, ackSent), s.net.frames[0];
    var ok := S.Show(S.Keep(s.screen, false), f, gl).1;
    assert f in s.net.frames && s.net.frames[..n][0] == f && S.Bare(gl, false) == gl;
    DrawnView(s, n, false, gl);
    LiveTurnNet(s, n, gl, stable, ackSent);
    if ok && f.ShmFull? {
      FullExact(s, n, gl, stable, ackSent);
    } else if ok && f.ShmRect? {
      RectExact(s, n, gl);
      UncountedShows(Drawn(s, n, false, gl), t);
      hide Inv, Turned, Drawn, S.Show, OnScreen, Followed;
    } else {
      if ok {
        DmaPictures(s, n, gl);
      }
      UnmetClaims(s.view, t.view, t.net, BuildAck(s.game, ok, stable));
      hide Inv, Turned, Drawn, S.Show, ClaimOf, OnScreen, Followed;
    }
  }

  /** After the turn at most its answer is unread, and nothing else under way. */
  lemma LiveTurnNet(s: System, n: nat, gl: S.ShowEnv, stable: bool, ackSent: bool)
    requires Inv(s) && s.view.link.connected && s.net.atLive && 0 < n <= |s.net.frames|
    ensures var next, ack := Turned(s, n, false, gl, stable, ackSent).net,
                             BuildAck(s.game, S.Show(S.Keep(s.screen, false), s.net.frames[0], gl).1, stable);
            s.view.pace.pending && next.frames == [] && (Acks(next.ctl) == [] || Acks(next.ctl) == [ack])
  {
    var f := s.net.frames[0];
    var ack := BuildAck(s.game, S.Show(S.Keep(s.screen, false), f, gl).1, stable);
    assert f in s.net.frames && s.net.frames == [f] && s.net.frames[..n][0] == f && S.Bare(gl, false) == gl;
    assert Acks([AckRecord(ack)]) == [ack];
    AcksAppend(s.net.ctl, [AckRecord(ack)]);
    hide Facts, Pictures, Written;
  }

  lemma UnmetClaims(v: ViewState, r: ViewState, next: Net, ack: AckMsg)
    requires PipelineFacts.Redrawn(v, r) && v.pace.pending && next.frames == []
    requires Acks(next.ctl) == [] || Acks(next.ctl) == [ack]
    requires ack.code != Accepted || !v.canvas.lastSentShm
    ensures ClaimOf(r, next) == NoClaim
  {
  }

  lemma UncountedShows(s: System, t: System)
    requires s.screen.Valid() && t == s.(game := t.game, net := t.net)
    ensures Followed(t) == Followed(s) && OnScreen(t) == OnScreen(s)
  {
  }

  /** A turn without a frame, on a connection that ends, or on an older one,
      while something is relied on, leaves the picture as it is. */
  lemma IdleTurnExact(s: System, n: nat, lost: bool, gl: S.ShowEnv, stable: bool, ackSent: bool)
    requires Inv(s) && Exact(s) && n <= |Inbox(s.net)| && (!s.net.atLive || lost || n == 0 || !s.view.link.connected)
    ensures var t := Turned(s, n, lost, gl, stable, ackSent); t.screen.Valid() && Exact(t)
  {
    var t := Turned(s, n, lost, gl, stable, ackSent);
    DrawnView(s, n, lost, gl);
    LostTurn(s.screen, Inbox(s.net)[..n], gl);
    if ClaimOf(s.view, s.net) != NoClaim {
      ClaimSynced(s);
      assert lost || n == 0;
    }
    IdleTurnClaims(s, n, lost, gl, stable, ackSent);
  }

  /** While anything is relied on the game serves the newest connection. */
  lemma ClaimSynced(s: System)
    requires Inv(s) && ClaimOf(s.view, s.net) != NoClaim
    ensures Synced(s.net)
  {
    hide Facts, WellFormed;
    if s.net.frames != [] {
      assert s.net.frames[0] in s.net.frames;
    }
  }

  lemma IdleTurnClaims(s: System, n: nat, lost: bool, gl: S.ShowEnv, stable: bool, ackSent: bool)
    requires Inv(s) && n <= |Inbox(s.net)| && (!s.net.atLive || lost || n == 0 || !s.view.link.connected)
    ensures var t := Turned(s, n, lost, gl, stable, ackSent);
            ClaimOf(t.view, t.net) == NoClaim || ClaimOf(t.view, t.net) == ClaimOf(s.view, s.net)
  {
    var t := Turned(s, n, lost, gl, stable, ackSent);
    DrawnView(s, n, lost, gl);
    if s.view.link.connected {
      IdleTurnNet(s, n, lost, gl, stable, ackSent);
    }
    hide Facts, WellFormed, Pictures, S.Turn, Written, ClaimOf, Served, Answer, PipelineFacts.Redrawn;
    if s.view.link.connected {
      FewerClaims(s.view, t.view, s.net, t.net);
    } else {
      assert ClaimOf(t.view, t.net) == NoClaim by {
        UnconnectedClaims(s.view, t.view, t.net);
      }
    }
  }

  lemma IdleTurnNet(s: System, n: nat, lost: bool, gl: S.ShowEnv, stable: bool, ackSent: bool)
    requires WellFormed(s) && n <= |Inbox(s.net)| && (!s.net.atLive || lost || n == 0)
    ensures var next := Turned(s, n, lost, gl, stable, ackSent).net;
            next.ctl == s.net.ctl && (next.frames == s.net.frames || next.frames == [])
  {
    assert s.net.atLive && n == 0 ==> s.net.frames[n..] == s.net.frames;
    hide S.Turn, Written;
  }

  lemma FewerClaims(v: ViewState, r: ViewState, net: Net, next: Net)
    requires PipelineFacts.Redrawn(v, r) && Flow(v, net) && next.ctl == net.ctl
    requires next.frames == net.frames || next.frames == []
    ensures ClaimOf(r, next) == NoClaim || ClaimOf(r, next) == ClaimOf(v, net)
  {
  }

  lemma UnconnectedClaims(v: ViewState, r: ViewState, next: Net)
    requires PipelineFacts.Redrawn(v, r) && !v.link.connected
    ensures ClaimOf(r, next) == NoClaim
  {
  }

  lemma TurnExact(s: System, n: nat, lost: bool, gl: S.ShowEnv, stable: bool, ackSent: bool)
    requires Inv(s) && Exact(s) && n <= |Inbox(s.net)|
    ensures var t := Turned(s, n, lost, gl, stable, ackSent); t.screen.Valid() && Exact(t)
  {
    if s.net.atLive && !lost && n > 0 && s.view.link.connected {
      LiveTurnExact(s, n, gl, stable, ackSent);
    } else {
      IdleTurnExact(s, n, lost, gl, stable, ackSent);
    }
  }

  /** Steps after which no more is relied on than before, with the same picture. */
  lemma LessExact(s: System, t: System)
    requires s.screen.Valid() && t.screen.Valid() && Exact(s)
    requires t.view == s.view && t.gone == s.gone && t.screen == s.screen.(hasFrame := t.screen.hasFrame)
    requires ClaimOf(t.view, t.net) == NoClaim || ClaimOf(t.view, t.net) == ClaimOf(s.view, s.net)
    ensures Exact(t)
  {
  }

  lemma HiddenClaims(s: System, n: nat, lost: bool, ackSent: bool)
    requires Inv(s) && n <= |Inbox(s.net)|
    ensures var next := Hidden(s, n, lost, ackSent).net;
            ClaimOf(s.view, next) == NoClaim || ClaimOf(s.view, next) == ClaimOf(s.view, s.net)
  {
    hide Facts, Fits, Pictures, ClaimOf, Accepts;
    if s.view.link.connected {
      HiddenNet(s.net, n, Hidden(s, n, lost, ackSent).net);
      WeakerClaims(s.view, s.net, Hidden(s, n, lost, ackSent).net);
    } else {
      NoneClaimed(s.view, Hidden(s, n, lost, ackSent).net);
    }
  }

  /** A hidden turn takes the frame under way, if any, and accepts nothing. */
  lemma HiddenNet(net: Net, n: nat, next: Net)
    requires n <= |Inbox(net)| && |net.frames| <= 1
    requires next.frames == net.frames || next.frames == [] || (net.atLive && next.frames == net.frames[n..])
    requires next.ctl == net.ctl || next.ctl == net.ctl + Discards(n)
    ensures next.frames == net.frames || next.frames == []
    ensures Accepts(Acks(next.ctl)) ==> Accepts(Acks(net.ctl))
  {
    AcksAppend(net.ctl, Discards(n));
    if Accepts(Acks(net.ctl) + Acks(Discards(n))) {
      DiscardsNeverAccept(Acks(net.ctl), n);
    }
    assert n == 0 && net.atLive ==> net.frames[n..] == net.frames;
  }

  lemma WeakerClaims(v: ViewState, net: Net, next: Net)
    requires Flow(v, net) && (next.frames == net.frames || next.frames == [])
    requires Accepts(Acks(next.ctl)) ==> Accepts(Acks(net.ctl))
    ensures ClaimOf(v, next) == NoClaim || ClaimOf(v, next) == ClaimOf(v, net)
  {
  }

  lemma NoneClaimed(v: ViewState, net: Net)
    requires !v.link.connected
    ensures ClaimOf(v, net) == NoClaim
  {
  }

  lemma HiddenExact(s: System, n: nat, lost: bool, ackSent: bool)
    requires Inv(s) && Exact(s) && n <= |Inbox(s.net)|
    ensures var t := Hidden(s, n, lost, ackSent); t.screen.Valid() && Exact(t)
  {
    var t := Hidden(s, n, lost, ackSent);
    assert n == 0 && s.net.atLive ==> s.net.frames[n..] == s.net.frames;
    hide Facts, Fits, Pictures, Exact;
    HiddenClaims(s, n, lost, ackSent);
    hide ClaimOf;
    LessExact(s, t);
  }

  lemma QuietStepExact(s: System, a: Action)
    requires Inv(s) && Enabled(s, a) && Exact(s)
    requires a.GameAsks? || a.GameTurnsTo? || a.GameResizes? || a.LinkFails?
    ensures Stepped(s, a).screen.Valid() && Exact(Stepped(s, a))
  {
    QuietStepIs(s, a);
    hide Stepped, Facts, Fits, Pictures, Exact, ClaimOf;
    SameClaims(s.view, s.net, Stepped(s, a).net);
    LessExact(s, Stepped(s, a));
  }

  lemma QuietStepIs(s: System, a: Action)
    requires WellFormed(s) && Enabled(s, a) && (a.GameAsks? || a.GameTurnsTo? || a.GameResizes? || a.LinkFails?)
    ensures var t := Stepped(s, a);
            && t.view == s.view && t.gone == s.gone && t.screen == s.screen && t.net.frames == s.net.frames
            && (Acks(t.net.ctl) == Acks(s.net.ctl) || Acks(t.net.ctl) == [])
  {
    if a.GameAsks? {
      AcksAppend(s.net.ctl, [RequestRecord(a.request)]);
      assert Acks([RequestRecord(a.request)]) == [] && Acks(s.net.ctl) + [] == Acks(s.net.ctl);
    }
  }

  lemma SameClaims(v: ViewState, net: Net, next: Net)
    requires next.frames == net.frames && (Acks(next.ctl) == Acks(net.ctl) || Acks(next.ctl) == [])
    ensures ClaimOf(v, next) == NoClaim || ClaimOf(v, next) == ClaimOf(v, net)
  {
  }

  lemma KilledExact(s: System)
    requires Inv(s)
    ensures Exact(s.(screen := S.Killed(s.screen)))
  {
    hide Facts, Fits, Pictures;
  }

  lemma TaskExact(s: System, up: bool, inited: bool)
    requires Inv(s) && Exact(s)
    ensures Tasked(s, up, inited).screen == s.screen && Exact(Tasked(s, up, inited))
  {
    hide Facts, Pictures;
  }

  /** Every step keeps it, except exactly a blit that paints over it. */
  lemma StepExactIff(s: System, a: Action)
    requires Inv(s) && Enabled(s, a) && Exact(s)
    ensures Stepped(s, a).screen.Valid() && (Exact(Stepped(s, a)) <==> !PaintsOver(s, a))
  {
    hide Turned, Hidden, Polled, Tasked, Exact;
    if IsCallback(a) {
      CallbackExact(s, a);
    } else if a.Poll? {
      StepIsPoll(s, a);
      PollExact(s, a.first, a.avails, a.hangup, a.env);
    } else if a.Task? {
      TaskExact(s, a.up, a.inited);
    } else if a.GameTurn? {
      StepIsTurn(s, a);
      TurnExact(s, a.n, a.lost, a.gl, a.stable, a.ackSent);
    } else {
      RestExact(s, a);
    }
  }

  lemma RestExact(s: System, a: Action)
    requires Inv(s) && Enabled(s, a) && Exact(s)
    requires !IsCallback(a) && !a.Poll? && !a.Task? && !a.GameTurn?
    ensures Stepped(s, a).screen.Valid() && Exact(Stepped(s, a))
  {
    if a.GameHidden? {
      HiddenExact(s, a.n, a.lost, a.ackSent);
      hide Hidden, Exact;
    } else if a.TextureFails? {
      KilledExact(s);
      hide Exact, Inv;
    } else {
      QuietStepExact(s, a);
    }
  }

  // ----- Over runs -----

  predicate ExactAt(states: seq<System>, m: nat) {
    m < |states| && states[m].screen.Valid() && Exact(states[m])
  }

  ghost predicate PaintsOverAt(states: seq<System>, actions: seq<Action>, m: nat) {
    m < |states| && m < |actions| && WellFormed(states[m]) && Enabled(states[m], actions[m])
    && PaintsOver(states[m], actions[m])
  }

  /** From any state of a run in which it holds, such as the first one: it holds
      in every state of a stretch if and only if no step of the stretch paints
      over it. */
  lemma {:induction false} MirrorIff(states: seq<System>, actions: seq<Action>, i: nat, k: nat)
    requires Run(states, actions) && i <= k < |states| && ExactAt(states, i)
    ensures (forall m | i <= m <= k :: ExactAt(states, m))
            <==> (forall m | i <= m < k :: !PaintsOverAt(states, actions, m))
    decreases k
  {
    hide Inv, Exact, PaintsOver, Stepped, Enabled, WellFormed;
    if i < k {
      MirrorIff(states, actions, i, k - 1);
      RunKeeps(states, actions, k - 1);
      if ExactAt(states, k - 1) {
        StepExactIff(states[k - 1], actions[k - 1]);
        assert ExactAt(states, k) <==> !PaintsOverAt(states, actions, k - 1);
      }
    }
  }

  lemma StartExact(states: seq<System>, actions: seq<Action>)
    requires Run(states, actions)
    ensures ExactAt(states, 0)
  {
    hide Stepped, WellFormed, Enabled;
  }

  /** In particular since a whole frame was accepted, whatever had been painted
      over before. */
  lemma MirrorSinceFull(states: seq<System>, actions: seq<Action>, j: nat, k: nat)
    requires Run(states, actions) && j < k < |states| && ShowsFull(states[j], actions[j])
    ensures (forall m | j < m <= k :: ExactAt(states, m))
            <==> (forall m | j < m < k :: !PaintsOverAt(states, actions, m))
  {
    hide Inv, Exact, PaintsOver, Stepped, Enabled, WellFormed, ShowsFull;
    RunKeeps(states, actions, j);
    FullStep(states[j], actions[j]);
    MirrorIff(states, actions, j + 1, k);
  }

  lemma FullStep(s: System, a: Action)
    requires Inv(s) && Enabled(s, a) && ShowsFull(s, a)
    ensures var t := Stepped(s, a);
            t.screen.Valid() && Exact(t) && (Followed(t) ==> OnScreen(t) == t.view.canvas.shadow)
  {
    StepIsTurn(s, a);
    hide Stepped, Turned, Exact;
    FullExact(s, a.n, a.gl, a.stable, a.ackSent);
  }

  /** While the snapshot is due before and after, painting over it is leaving
      other pixels in a live buffer than those on screen. */
  lemma PaintsOverPlainly(s: System, a: Action)
    requires Inv(s) && Enabled(s, a) && Exact(s) && Followed(s) && Leaves(s, a).Some?
    requires Live(s.view.gpu.bufs, s.screen.Current().tex.source)
    requires Due(s) && Due(Moved(s, ViewAfter(s.view, a)))
    ensures PaintsOver(s, a)
            <==> Leaves(s, a).value.image != s.view.gpu.bufs.At(s.screen.Current().tex.source.buffer).image
  {
    CallbackShows(s, a);
    DueCallback(s, a);
    SameObject(s.view, a);
  }

  /** A blit into the same object leaves its size. */
  lemma SameObject(v: ViewState, a: Action)
    requires Fits(v) && Stages(v, a) && a.info.Valid()
    ensures var was, o := v.gpu.bufs.At(Target(v)), AfterBlit(v, a);
            was.present && o.present && o.serial == was.serial ==> o.w == was.w && o.h == was.h
  {
    var was, i := v.gpu.bufs.At(Target(v)), a.info;
    if Busy(v) {
      ExportKeepsSize(was, i.planes, i.texture, i.w, i.h, [], true, a.env.blit);
    } else {
      ExportKeepsSize(was, i.planes, i.texture, i.w, i.h, a.dirty, !CanBlitDirty(v, i), a.env.blit);
    }
    hide BlitAndExport;
  }

  /** What the last blit of the stretch into the memory on screen left there. */
  ghost function LastLeft(states: seq<System>, actions: seq<Action>, i: nat, k: nat): Option<Staged>
    requires Run(states, actions) && i <= k < |states|
    decreases k
  {
    if i == k then None
    else if Leaves(states[k - 1], actions[k - 1]).Some? then Leaves(states[k - 1], actions[k - 1])
    else LastLeft(states, actions, i, k - 1)
  }

  /** A step from one state in which the snapshot is due to the next moves neither frame nor snapshot. */
  lemma DueStep(s: System, a: Action)
    requires Inv(s) && Enabled(s, a) && Due(s) && Due(Stepped(s, a)) && !a.TextureFails?
    ensures var t, o := Stepped(s, a), Leaves(s, a);
            && t.screen.Valid() && t.view.canvas.shadow == s.view.canvas.shadow
            && OnScreen(t) == if o.Some? then Some(Image(o.value.w, o.value.h, o.value.image)) else OnScreen(s)
  {
    if IsCallback(a) {
      CallbackShows(s, a);
      DueCallback(s, a);
    } else if a.Poll? {
      StepIsPoll(s, a);
      DuePoll(s, a.first, a.avails, a.hangup, a.env);
    } else if a.GameTurn? {
      StepIsTurn(s, a);
      DueTurn(s, a.n, a.lost, a.gl, a.stable, a.ackSent);
    } else {
      DueRest(s, a);
    }
  }

  lemma DueSends(s: System, r: ViewState)
    requires Inv(s) && Sends(s.view, r) && Rests(s.view, r) && ClaimOf(r, Carry(s.net, s.view, r)) == IsSnapshot
    ensures Due(s) && r.canvas.shadow == s.view.canvas.shadow
  {
    var v := s.view;
    hide WellFormed, Facts, Pictures;
    assert Quiet(v, r);
  }

  lemma DueCallback(s: System, a: Action)
    requires Inv(s) && Enabled(s, a) && IsCallback(a) && Due(Moved(s, ViewAfter(s.view, a)))
    ensures ViewAfter(s.view, a).canvas.shadow == s.view.canvas.shadow
  {
    CallbackSends(s, a);
    hide ViewAfter, Inv;
    DueSends(s, ViewAfter(s.view, a));
  }

  lemma DuePoll(s: System, first: nat, avails: seq<nat>, hangup: Hangup, env: Env)
    requires Inv(s) && Due(s) && Due(Polled(s, first, avails, hangup, env))
    ensures var t := Polled(s, first, avails, hangup, env);
            t.screen == s.screen && t.view.canvas.shadow == s.view.canvas.shadow && OnScreen(t) == OnScreen(s)
  {
    if !s.net.open {
      DueGrant(s, [], false, env);
    } else {
      DueOpenPoll(s, Read(s.view.pace.pending, s.net, first, avails, hangup), first, avails, hangup, env);
    }
  }

  lemma DueGrant(s: System, reqs: seq<Request>, up: bool, env: Env)
    requires Inv(s) && s.view.link.connected && Due(Moved(s, PollSocket(s.view, None, reqs, up, env)))
    ensures var t := Moved(s, PollSocket(s.view, None, reqs, up, env));
            Due(s) && t.screen == s.screen && t.view.canvas.shadow == s.view.canvas.shadow && OnScreen(t) == OnScreen(s)
  {
    var r := PollSocket(s.view, None, reqs, up, env);
    GrantSends(s.view, reqs, up, env);
    PollSendsNoBlit(s.view, reqs, up, env);
    hide PollSocket, Facts;
    UnblittedShows(s, r);
    DueSends(s, r);
  }

  lemma DueOpenPoll(s: System, r: Reading, first: nat, avails: seq<nat>, hangup: Hangup, env: Env)
    requires Inv(s) && s.view.link.connected && r == Read(s.view.pace.pending, s.net, first, avails, hangup)
    requires Due(Moved(AfterRead(s, r), PollSocket(s.view, r.ack, r.reqs, r.up, env)))
    ensures var t := Moved(AfterRead(s, r), PollSocket(s.view, r.ack, r.reqs, r.up, env));
            t.screen == s.screen && t.view.canvas.shadow == s.view.canvas.shadow && OnScreen(t) == OnScreen(s)
  {
    hide PollSocket, TakeAck, Read;
    ReadTakes(s.view.pace.pending, s.net, first, avails, hangup);
    var t, a := AfterRead(s, r), TakeAck(s.view, r.ack, env.readOk);
    AckMoves(s, r.ack, t.net, r.k, env.readOk);
    assert Inv(t.(view := a));
    PolledIsMoved(t, a, r, env);
    DueGrant(t.(view := a), r.reqs, r.up, env);
    ReadShows(s, r, a);
    hide Moved, OnScreen, ClaimOf, Facts, Pictures, WellFormed;
    DueAck(s, r.ack, t.net, env.readOk);
  }

  lemma ReadShows(s: System, r: Reading, a: ViewState)
    requires s.screen.Valid() && r.k <= |s.net.ctl| && a.gpu.bufs == s.view.gpu.bufs
    ensures var t := AfterRead(s, r).(view := a); t.screen == s.screen && OnScreen(t) == OnScreen(s)
  {
  }

  lemma DueAck(s: System, ack: Option<AckMsg>, next: Net, readOk: bool)
    requires Inv(s) && s.view.link.connected && (ack.Some? ==> s.view.pace.pending)
    requires ClaimOf(TakeAck(s.view, ack, readOk), next) == IsSnapshot
    ensures TakeAck(s.view, ack, readOk).canvas.shadow == s.view.canvas.shadow
  {
    if ack.Some? {
      ProcessAckAcknowledges(s.view, ack.value, readOk);
    }
  }

  lemma DueTurn(s: System, n: nat, lost: bool, gl: S.ShowEnv, stable: bool, ackSent: bool)
    requires Inv(s) && Due(s) && n <= |Inbox(s.net)|
    ensures var t := Turned(s, n, lost, gl, stable, ackSent);
            t.screen.Valid() && t.view.canvas.shadow == s.view.canvas.shadow && OnScreen(t) == OnScreen(s)
  {
    ClaimSynced(s);
    DrawnView(s, n, lost, gl);
    assert n == 0;
    LostTurn(s.screen, Inbox(s.net)[..n], gl);
  }

  lemma DueRest(s: System, a: Action)
    requires WellFormed(s) && Enabled(s, a) && Due(s) && Due(Stepped(s, a))
    requires a.Task? || a.GameHidden? || a.GameAsks? || a.GameTurnsTo? || a.GameResizes? || a.LinkFails?
    ensures var t := Stepped(s, a);
            t.screen.Valid() && t.view.canvas.shadow == s.view.canvas.shadow && OnScreen(t) == OnScreen(s)
  {
    if a.Task? {
      DueTask(s, a.up, a.inited);
    } else if a.GameHidden? {
      hide Fits, Due;
    } else {
      QuietStepIs(s, a);
      hide Fits, Due, Stepped;
    }
  }

  lemma DueTask(s: System, up: bool, inited: bool)
    requires WellFormed(s) && Due(s) && Due(Tasked(s, up, inited))
    ensures Tasked(s, up, inited) == s
  {
    hide Fits;
  }

  predicate DueThroughout(states: seq<System>, actions: seq<Action>, i: nat, k: nat) {
    && i <= k < |states| && k <= |actions|
    && (forall m | i <= m <= k :: Due(states[m])) && (forall m | i <= m < k :: !actions[m].TextureFails?)
  }

  /** While the snapshot is due on screen, from the turn that shows the frame
      through its acknowledgement until the next frame goes out, the snapshot stays
      and the texture shows what the last blit into its memory left, or, without
      one, what it showed first. */
  lemma {:induction false} DueShows(states: seq<System>, actions: seq<Action>, i: nat, k: nat)
    requires Run(states, actions) && DueThroughout(states, actions, i, k)
    ensures states[i].screen.Valid() && states[k].screen.Valid()
    ensures states[k].view.canvas.shadow == states[i].view.canvas.shadow
    ensures var o := LastLeft(states, actions, i, k);
            OnScreen(states[k])
            == if o.Some? then Some(Image(o.value.w, o.value.h, o.value.image)) else OnScreen(states[i])
    decreases k
  {
    hide Inv, Due, Leaves, Stepped, Enabled, WellFormed, OnScreen;
    RunKeeps(states, actions, i);
    InvValid(states[i]);
    if i < k {
      DueShows(states, actions, i, k - 1);
      RunKeeps(states, actions, k - 1);
      assert Due(states[k - 1]) && Due(states[k]) && !actions[k - 1].TextureFails?;
      DueStep(states[k - 1], actions[k - 1]);
    }
  }

  lemma InvValid(s: System)
    requires Inv(s)
    ensures s.screen.Valid()
  {
  }

  /** Of a single state: since a whole frame of shared memory was accepted, the
      texture is the snapshot if and only if no blit has gone into its memory
      since, or the last one that did left the snapshot there. */
  lemma MirrorStateIff(states: seq<System>, actions: seq<Action>, j: nat, k: nat)
    requires Run(states, actions) && j < k && DueThroughout(states, actions, j + 1, k)
    requires ShowsFull(states[j], actions[j])
    requires states[j + 1].screen.Valid() && Followed(states[j + 1])
    ensures states[k].screen.Valid()
    ensures var o := LastLeft(states, actions, j + 1, k);
            OnScreen(states[k]) == states[k].view.canvas.shadow <==>
              o.None? || Some(Image(o.value.w, o.value.h, o.value.image)) == states[k].view.canvas.shadow
  {
    hide Inv, Due, Leaves, Stepped, Enabled, WellFormed, ShowsFull;
    RunKeeps(states, actions, j);
    FullStep(states[j], actions[j]);
    DueShows(states, actions, j + 1, k);
  }

  // ----- The newest paint -----

  /** At rest after a shared-memory frame the newest paint is on screen exactly if
      the snapshot is. */
  lemma NewestShownIff(states: seq<System>, actions: seq<Action>, k: nat)
    requires Run(states, actions) && k < |states| && states[k].net.alive
    requires AtRest(states[k].view) && states[k].view.canvas.lastSentShm
    requires states[k].screen.Valid() && Followed(states[k])
    ensures Displays(states[k], states[k].view.hist.latest.value) <==> ExactAt(states, k)
  {
    RunKeeps(states, actions, k);
  }

  /** Away from rest it is the deferred snapshot or the frame in flight. */
  lemma KeptElsewhere(s: System)
    requires Inv(s) && s.view.link.connected && s.view.hist.kept && s.view.hist.latest.Some? && !AtRest(s.view)
    ensures var v, newest := s.view, s.view.hist.latest.value;
            || Shows(v.gpu.bufs, v.deferred, newest)
            || (v.pace.pending && v.deferred == Nothing && v.hist.sentImg == newest)
  {
    hide Pictures, WellFormed;
  }

  lemma RestShowsBuffer(s: System)
    requires Inv(s) && s.net.alive && AtRest(s.view) && !s.view.canvas.lastSentShm
    ensures Displays(s, s.view.hist.latest.value) || s.screen.collided || s.screen.Current().tex == S.NoTexture
  {
    RestDisplays(s);
  }

  /** If no step of a stretch paints over the screen, the newest paint is kept,
      under way or on screen, unless a repeated identifier or GL took it away or
      the memory behind the texture is not followed. */
  lemma NewestOnScreen(states: seq<System>, actions: seq<Action>, i: nat, k: nat)
    requires Run(states, actions) && i <= k < |states| && ExactAt(states, i)
    requires forall m | i <= m < k :: !PaintsOverAt(states, actions, m)
    requires var s := states[k]; s.view.link.connected && s.net.alive && s.view.hist.kept && s.view.hist.latest.Some?
    ensures var s, newest := states[k], states[k].view.hist.latest.value;
            && s.screen.Valid()
            && (|| Shows(s.view.gpu.bufs, s.view.deferred, newest)
                || (s.view.pace.pending && s.view.deferred == Nothing && s.view.hist.sentImg == newest)
                || Displays(s, newest)
                || s.screen.collided || s.screen.Current().tex == S.NoTexture
                || (s.view.canvas.lastSentShm && !Followed(s)))
  {
    hide Run, Exact, PaintsOverAt, Followed, OnScreen, Inv, Excused;
    var s := states[k];
    MirrorIff(states, actions, i, k);
    RunKeeps(states, actions, k);
    InvValid(s);
    if !AtRest(s.view) {
      KeptElsewhere(s);
    } else if s.view.canvas.lastSentShm {
      if Followed(s) {
        NewestShownIff(states, actions, k);
      }
    } else {
      RestShowsBuffer(s);
    }
  }
}
