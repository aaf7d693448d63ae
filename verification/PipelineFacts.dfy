/** What every reachable state of the pipeline satisfies. */
module PipelineFacts {
  import opened Bytes
  import opened GpuBuf
  import opened ControlWire
  import opened ControlStream
  import opened PollFacts
  import opened ViewState
  import opened ViewFacts
  import opened ViewSends
  import opened Pipeline
  import S = Screen

  // ----- The facts -----

  /** At most one frame or one acknowledgement is under way, only while one is
      pending, and the frame is the last one sent. */
  predicate Flow(v: ViewState, net: Net) {
    && |net.frames| + |Acks(net.ctl)| <= (if v.pace.pending then 1 else 0)
    && (net.frames != [] ==> v.hist.wire != [] && net.frames[0] == v.hist.wire[|v.hist.wire| - 1])
  }

  /** The game wrote the whole object last, at the size of the texture. */
  predicate Filled(o: Staged, cur: S.Slot) {
    o.author == ByGame && o.w == cur.w && o.h == cur.h
  }

  /** A texture of imported memory that snapshots are uploaded into: as long as
      the view has not staged into that memory since, it has the snapshot. */
  predicate Lent(bufs: Buffers, gone: map<S.Source, Staged>, cur: S.Slot, shadow: Option<Image>) {
    && S.Foreign(cur)
    && (cur.tex.source.StagedBo? ==>
          var o := Object(bufs, gone, cur.tex.source);
          o.Some? && (Filled(o.value, cur) ==> shadow == Some(Image(cur.w, cur.h, o.value.image))))
  }

  /** A texture with its own pixels shows exactly the snapshot. */
  predicate ShmShown(screen: S.Screen, bufs: Buffers, gone: map<S.Source, Staged>, shadow: Option<Image>, alive: bool)
    requires screen.Valid()
  {
    var cur := screen.Current();
    match cur.tex
    case NoTexture => true
    case Own(px) => shadow == Some(Image(cur.w, cur.h, px)) && (alive ==> screen.hasFrame)
    case Shared(_) => Lent(bufs, gone, cur, shadow) && (alive ==> screen.hasFrame)
  }

  /** The texture samples the buffer object named. The exceptions: the texture
      was deleted, or the cached identifier was another buffer's. */
  predicate GpuShown(screen: S.Screen, bufs: Buffers, held: Held, alive: bool)
    requires screen.Valid()
  {
    || screen.collided || screen.Current().tex == S.NoTexture
    || (screen.Current().tex == S.Shared(S.StagedBo(held.b, bufs.At(held.b).serial)) && (alive ==> screen.hasFrame))
  }

  /** A rectangle under way will turn what the texture shows into the snapshot. */
  predicate RectReady(screen: S.Screen, bufs: Buffers, gone: map<S.Source, Staged>, f: Frame, shadow: Option<Image>,
                      alive: bool)
    requires screen.Valid() && f.ShmRect?
  {
    var cur := screen.Current();
    match cur.tex
    case NoTexture => true
    case Own(px) => RectMoves(Some(Image(cur.w, cur.h, px)), f.w, f.h, f.packet, shadow) && (alive ==> screen.hasFrame)
    case Shared(src) =>
      && S.Foreign(cur) && (alive ==> screen.hasFrame)
      && (src.StagedBo? ==>
            var o := Object(bufs, gone, src);
            o.Some? && (Filled(o.value, cur) ==>
                          RectMoves(Some(Image(cur.w, cur.h, o.value.image)), f.w, f.h, f.packet, shadow)))
  }

  /** No older connection is left for the game to serve. */
  predicate Synced(net: Net) {
    net.stale == [] && (net.alive ==> net.atLive)
  }

  predicate Accepts(acks: seq<AckMsg>) {
    exists k :: 0 <= k < |acks| && acks[k].code == Accepted
  }

  /** While a frame is pending. */
  predicate Waiting(v: ViewState, gone: map<S.Source, Staged>, net: Net, screen: S.Screen)
    requires screen.Valid()
  {
    && (forall f | f in net.frames && f.ShmRect? ::
          Synced(net) && RectReady(screen, v.gpu.bufs, gone, f, v.canvas.shadow, net.alive))
    && (Accepts(Acks(net.ctl)) ==>
          && Synced(net)
          && (v.canvas.lastSentShm ==> ShmShown(screen, v.gpu.bufs, gone, v.canvas.shadow, net.alive))
          && (v.gpu.inflight.Some? ==> GpuShown(screen, v.gpu.bufs, v.gpu.inflight.value, net.alive)))
  }

  /** While none is. */
  predicate Resting(v: ViewState, gone: map<S.Source, Staged>, net: Net, screen: S.Screen)
    requires screen.Valid()
  {
    && (v.canvas.baselineValid ==> Synced(net) && ShmShown(screen, v.gpu.bufs, gone, v.canvas.shadow, net.alive))
    && (AtRest(v) ==>
          && Synced(net)
          && if v.canvas.lastSentShm then ShmShown(screen, v.gpu.bufs, gone, v.canvas.shadow, net.alive)
             else v.gpu.lastAcked.Some? && GpuShown(screen, v.gpu.bufs, v.gpu.lastAcked.value, net.alive))
  }

  predicate Pictures(v: ViewState, gone: map<S.Source, Staged>, net: Net, screen: S.Screen)
    requires screen.Valid()
  {
    if v.pace.pending then Waiting(v, gone, net, screen) else Resting(v, gone, net, screen)
  }

  predicate Joined(v: ViewState, gone: map<S.Source, Staged>, net: Net, screen: S.Screen)
    requires screen.Valid()
  {
    v.link.connected ==> Flow(v, net) && Pictures(v, gone, net, screen)
  }

  predicate Inv(s: System) {
    && WellFormed(s) && Facts(s.view) && s.net.queued == 0
    && (s.net.atLive ==> s.net.stale == [])
    && Joined(s.view, s.gone, s.net, s.screen)
  }

  // ----- Callbacks of the view -----

  lemma LastSentValid(v: ViewState)
    requires Fits(v) && Flying(v) && v.pace.pending
    ensures S.FrameValid(v.hist.wire[|v.hist.wire| - 1])
  {
  }

  /** The in-flight buffer object is the same as long as the frame is. */
  lemma QuietKeepsFlight(v: ViewState, r: ViewState)
    requires Quiet(v, r) && Facts(v) && Facts(r) && v.pace.pending && v.gpu.inflight.Some?
    ensures r.gpu.bufs.At(r.gpu.inflight.value.b).serial == v.gpu.bufs.At(v.gpu.inflight.value.b).serial
  {
  }

  /** A callback leaves an object alone, retires it, or stages into it. */
  lemma RetireObject(gone: map<S.Source, Staged>, v: ViewState, r: ViewState, src: S.Source)
    requires Blitted(v, r) && src.StagedBo?
    ensures var was, now := Object(v.gpu.bufs, gone, src),
                            Object(r.gpu.bufs, Retire(gone, v.gpu.bufs, r.gpu.bufs), src);
            now == was || (now.Some? && now.value.author == ByView)
  {
    assert r.gpu.bufs.At(src.buffer) == v.gpu.bufs.At(src.buffer) || r.gpu.bufs.At(src.buffer).author == ByView;
  }

  lemma QuietPictures(v: ViewState, r: ViewState, gone: map<S.Source, Staged>, net: Net, screen: S.Screen)
    requires Facts(v) && Facts(r) && screen.Valid()
    requires Quiet(v, r) && Rests(v, r) && Pictures(v, gone, net, screen)
    ensures Pictures(r, Retire(gone, v.gpu.bufs, r.gpu.bufs), net, screen)
  {
    var cur := screen.Current();
    if cur.tex.Shared? && cur.tex.source.StagedBo? {
      RetireObject(gone, v, r, cur.tex.source);
    }
    if v.pace.pending && v.gpu.inflight.Some? {
      QuietKeepsFlight(v, r);
    }
  }

  lemma LaunchPictures(v: ViewState, r: ViewState, gone: map<S.Source, Staged>, f: Frame, net: Net, next: Net,
                       screen: S.Screen)
    requires Facts(v) && Facts(r) && screen.Valid()
    requires Launches(v, r, f) && v.link.connected && Flow(v, net) && Pictures(v, gone, net, screen)
    requires next == (if net.alive then net.(frames := net.frames + [f]) else net)
    ensures Flow(r, next) && Pictures(r, Retire(gone, v.gpu.bufs, r.gpu.bufs), next, screen)
  {
    assert net.frames == [] && Acks(net.ctl) == [];
    if f.ShmRect? {
      var cur := screen.Current();
      assert v.canvas.shadow.Some? && ShmShown(screen, v.gpu.bufs, gone, v.canvas.shadow, net.alive);
      if cur.tex.Shared? && cur.tex.source.StagedBo? {
        RetireObject(gone, v, r, cur.tex.source);
      }
    }
  }

  /** A callback that may send one frame and comes to rest only where it should. */
  lemma ViewMoves(s: System, r: ViewState)
    requires Inv(s) && Facts(r) && Sends(s.view, r) && Rests(s.view, r)
    ensures Inv(Moved(s, r))
  {
    var v := s.view;
    if !Quiet(v, r) {
      var f := r.hist.wire[|r.hist.wire| - 1];
      assert r.hist.wire[|v.hist.wire|..] == [f];
      LastSentValid(r);
      LaunchPictures(v, r, s.gone, f, s.net, Carry(s.net, v, r), s.screen);
    } else if v.link.connected {
      QuietPictures(v, r, s.gone, s.net, s.screen);
    }
  }

  // ----- Polling -----

  /** The connection after something was read off it, whole or closed. */
  predicate ReadOff(net: Net, next: Net, k: nat) {
    && k <= |net.ctl| && next.frames == net.frames && next.stale == net.stale && next.atLive == net.atLive
    && next.queued == 0
    && ((next.ctl == net.ctl[k..] && next.alive == net.alive) || (next.ctl == [] && !next.alive))
  }

  lemma AckedPictures(v: ViewState, a: ViewState, gone: map<S.Source, Staged>, ack: AckMsg, net: Net, next: Net,
                      screen: S.Screen)
    requires screen.Valid() && v.pace.pending && Waiting(v, gone, net, screen) && Acknowledged(v, a, ack)
    requires ack.code == Accepted ==> Accepts(Acks(net.ctl))
    requires next.stale == net.stale && next.atLive == net.atLive && (next.alive ==> net.alive)
    ensures Pictures(a, gone, next, screen)
  {
  }

  /** Taking the acknowledgement that was read keeps them consistent. */
  lemma AckMoves(s: System, ack: Option<AckMsg>, next: Net, k: nat, readOk: bool)
    requires Inv(s) && s.view.link.connected && ReadOff(s.net, next, k)
    requires ack.Some? ==> s.view.pace.pending
    requires Acks(s.net.ctl[..k]) == if ack.Some? then [ack.value] else []
    ensures Inv(s.(view := TakeAck(s.view, ack, readOk), net := next))
    ensures TakeAck(s.view, ack, readOk).gpu.bufs == s.view.gpu.bufs
  {
    TakeAckKeeps(s.view, ack, readOk);
    AckPictures(s, ack, next, k, readOk);
    hide TakeAck, Facts, Flow, Pictures;
  }

  lemma AckPictures(s: System, ack: Option<AckMsg>, next: Net, k: nat, readOk: bool)
    requires Inv(s) && s.view.link.connected && ReadOff(s.net, next, k)
    requires ack.Some? ==> s.view.pace.pending
    requires Acks(s.net.ctl[..k]) == if ack.Some? then [ack.value] else []
    ensures var a := TakeAck(s.view, ack, readOk);
            && a.gpu.bufs == s.view.gpu.bufs && a.link.connected
            && Flow(a, next) && Pictures(a, s.gone, next, s.screen)
  {
    var v, a := s.view, TakeAck(s.view, ack, readOk);
    AcksSplit(s.net.ctl, k);
    if ack.Some? {
      ProcessAckAcknowledges(v, ack.value, readOk);
      hide ProcessAck, Facts, Fits;
      assert Acks(s.net.ctl)[0] == ack.value;
      AckedPictures(v, a, s.gone, ack.value, s.net, next, s.screen);
    } else {
      UnackedPictures(v, s.gone, s.net, next, s.screen);
      hide Facts, Fits, Pictures;
    }
  }

  lemma UnackedPictures(v: ViewState, gone: map<S.Source, Staged>, net: Net, next: Net, screen: S.Screen)
    requires screen.Valid() && Pictures(v, gone, net, screen) && next.frames == net.frames
    requires Acks(next.ctl) == Acks(net.ctl) || Acks(next.ctl) == []
    requires next.stale == net.stale && next.atLive == net.atLive && (next.alive ==> net.alive)
    ensures Pictures(v, gone, next, screen)
  {
  }

  /** Granting credit and sending what was kept is a callback like any other. */
  lemma GrantSends(v: ViewState, reqs: seq<Request>, up: bool, env: Env)
    requires Facts(v) && v.link.connected
    ensures var r := PollSocket(v, None, reqs, up, env); Facts(r) && Sends(v, r) && Rests(v, r)
  {
    var c := TakeRequests(v, reqs, up);
    PollSocketKeeps(v, None, reqs, up, env);
    TakeRequestsKeeps(v, reqs, up);
    MaybeSendDeferredSends(c, env);
    MaybeSendDeferredRests(c, env);
    QuietThenSends(v, c, MaybeSendDeferred(c, env));
  }

  lemma PollMoves(s: System, first: nat, avails: seq<nat>, hangup: Hangup, env: Env)
    requires Inv(s)
    ensures Inv(Polled(s, first, avails, hangup, env))
  {
    if s.view.link.connected && !s.net.open {
      GrantSends(s.view, [], false, env);
      ViewMoves(s, PollSocket(s.view, None, [], false, env));
    } else if s.view.link.connected {
      OpenPollMoves(s, Read(s.view.pace.pending, s.net, first, avails, hangup), first, avails, hangup, env);
    }
  }

  lemma OpenPollMoves(s: System, r: Reading, first: nat, avails: seq<nat>, hangup: Hangup, env: Env)
    requires Inv(s) && s.view.link.connected && r == Read(s.view.pace.pending, s.net, first, avails, hangup)
    ensures Inv(Moved(AfterRead(s, r), PollSocket(s.view, r.ack, r.reqs, r.up, env)))
  {
    hide PollSocket, TakeAck, Read;
    ReadTakes(s.view.pace.pending, s.net, first, avails, hangup);
    var t, a := AfterRead(s, r), TakeAck(s.view, r.ack, env.readOk);
    AckMoves(s, r.ack, t.net, r.k, env.readOk);
    assert Inv(t.(view := a));
    GrantSends(a, r.reqs, r.up, env);
    PolledIsMoved(t, a, r, env);
    ViewMoves(t.(view := a), PollSocket(a, None, r.reqs, r.up, env));
  }

  /** The whole exchange, seen as taking the ACK first. */
  lemma PolledIsMoved(t: System, a: ViewState, r: Reading, env: Env)
    requires Fits(t.view) && t.view.link.connected && a == TakeAck(t.view, r.ack, env.readOk)
    requires a.gpu.bufs == t.view.gpu.bufs
    ensures Moved(t, PollSocket(t.view, r.ack, r.reqs, r.up, env))
            == Moved(t.(view := a), PollSocket(a, None, r.reqs, r.up, env))
  {
    assert PollSocket(a, None, r.reqs, r.up, env) == PollSocket(t.view, r.ack, r.reqs, r.up, env);
  }

  // ----- The game's turns -----

  lemma AcksAppend(ctl: seq<Record>, more: seq<Record>)
    ensures Acks(ctl + more) == Acks(ctl) + Acks(more)
  {
    AcksSplit(ctl + more, |ctl|);
    assert (ctl + more)[..|ctl|] == ctl && (ctl + more)[|ctl|..] == more;
  }

  lemma {:induction false} DiscardAcks(n: nat)
    ensures |Acks(Discards(n))| == n && forall a | a in Acks(Discards(n)) :: a == AckMsg(Discarded, 0, 0)
  {
    if n > 0 {
      DiscardAcks(n - 1);
      assert Discards(n)[1..] == Discards(n - 1);
    }
  }

  /** Showing the frame in flight: if it is accepted, the picture is right, in
      the texture or in the memory behind it. */
  lemma ShowPictures(s: System, n: nat, gl: S.ShowEnv)
    requires Inv(s) && s.view.link.connected && s.net.atLive && 0 < n <= |s.net.frames|
    requires S.Show(S.Keep(s.screen, false), s.net.frames[0], gl).1
    ensures var t, v := Drawn(s, n, false, gl), s.view;
            && (v.canvas.lastSentShm ==>
                  ShmShown(t.screen, t.view.gpu.bufs, t.gone, v.canvas.shadow, s.net.alive))
            && (v.gpu.inflight.Some? ==> GpuShown(t.screen, t.view.gpu.bufs, v.gpu.inflight.value, s.net.alive))
  {
    var f := s.net.frames[0];
    assert f in s.net.frames && s.net.frames[..n][0] == f && S.Bare(gl, false) == gl;
    match f
    case ShmFull(w, h, px) => FullPictures(s, n, gl);
    case ShmRect(w, h, packet) => RectPictures(s, n, gl);
    case _ => DmaPictures(s, n, gl);
  }

  lemma DmaPictures(s: System, n: nat, gl: S.ShowEnv)
    requires Inv(s) && s.view.link.connected && s.net.atLive && 0 < n <= |s.net.frames|
    requires !s.net.frames[0].ShmFull? && !s.net.frames[0].ShmRect?
    requires S.Show(S.Keep(s.screen, false), s.net.frames[0], gl).1
    ensures var t, v := Drawn(s, n, false, gl), s.view;
            && !v.canvas.lastSentShm
            && (v.gpu.inflight.Some? ==> GpuShown(t.screen, t.view.gpu.bufs, v.gpu.inflight.value, s.net.alive))
  {
    assert s.net.frames[..n][0] == s.net.frames[0] && S.Bare(gl, false) == gl;
    assert S.TurnUploads(s.screen, s.net.frames[..n], false, gl) == [];
  }

  lemma FullPictures(s: System, n: nat, gl: S.ShowEnv)
    requires Inv(s) && s.view.link.connected && s.net.atLive && 0 < n <= |s.net.frames| && s.net.frames[0].ShmFull?
    requires S.Show(S.Keep(s.screen, false), s.net.frames[0], gl).1
    ensures var t := Drawn(s, n, false, gl);
            && s.view.canvas.lastSentShm
            && ShmShown(t.screen, t.view.gpu.bufs, t.gone, s.view.canvas.shadow, s.net.alive)
  {
    var f, back := s.net.frames[0], s.screen.slots[1 - s.screen.idx];
    assert s.net.frames[..n][0] == f && S.Bare(gl, false) == gl && f in s.net.frames;
    if S.Foreign(back) && back.w == f.w && back.h == f.h && back.tex.source.StagedBo? {
      WrittenFull(s, back.tex.source, f, gl.smear);
    }
  }

  lemma WrittenFull(s: System, src: S.Source, f: Frame, smear: seq<byte>)
    requires Fits(s.view) && src.StagedBo? && S.FrameValid(f) && f.ShmFull?
    ensures var t := Written(s, [S.Write(src, f)], smear);
            var o := Object(t.view.gpu.bufs, t.gone, src);
            o.Some? && (o.value.w == f.w && o.value.h == f.h ==> o.value.image == f.px)
  {
  }

  lemma RectPictures(s: System, n: nat, gl: S.ShowEnv)
    requires Inv(s) && s.view.link.connected && s.net.atLive && 0 < n <= |s.net.frames| && s.net.frames[0].ShmRect?
    requires S.Show(S.Keep(s.screen, false), s.net.frames[0], gl).1
    ensures var t := Drawn(s, n, false, gl);
            && s.view.canvas.lastSentShm
            && ShmShown(t.screen, t.view.gpu.bufs, t.gone, s.view.canvas.shadow, s.net.alive)
  {
    var f, cur := s.net.frames[0], s.screen.Current();
    assert s.net.frames[..n][0] == f && S.Bare(gl, false) == gl && f in s.net.frames;
    assert RectReady(s.screen, s.view.gpu.bufs, s.gone, f, s.view.canvas.shadow, s.net.alive);
    if cur.tex.Shared? && cur.tex.source.StagedBo? {
      WrittenRect(s, cur.tex.source, f, gl.smear);
    }
  }

  lemma WrittenRect(s: System, src: S.Source, f: Frame, smear: seq<byte>)
    requires Fits(s.view) && src.StagedBo? && S.FrameValid(f) && f.ShmRect?
    requires Object(s.view.gpu.bufs, s.gone, src).Some?
    ensures var t := Written(s, [S.Write(src, f)], smear);
            Object(t.view.gpu.bufs, t.gone, src) == Some(Overlaid(Object(s.view.gpu.bufs, s.gone, src).value, f, smear))
  {
  }

  /** What an upload can change of the view: pixels in its buffers, and whether
      the newest paint is still kept. */
  predicate Redrawn(v: ViewState, r: ViewState) {
    && r == v.(gpu := v.gpu.(bufs := r.gpu.bufs), hist := v.hist.(kept := r.hist.kept, spared := r.hist.spared))
    && (r.hist.kept ==> v.hist.kept)
    && (forall b :: r.gpu.bufs.At(b).serial == v.gpu.bufs.At(b).serial)
  }

  lemma WrittenView(s: System, ws: seq<S.Write>, smear: seq<byte>)
    requires Facts(s.view)
    requires forall k | 0 <= k < |ws| :: S.FrameValid(ws[k].frame) && (ws[k].frame.ShmFull? || ws[k].frame.ShmRect?)
    ensures var t := Written(s, ws, smear); Facts(t.view) && Redrawn(s.view, t.view) && t.game == s.game
  {
    if ws != [] && Live(s.view.gpu.bufs, ws[0].source) {
      var b := ws[0].source.buffer;
      var o := Overlaid(s.view.gpu.bufs.At(b), ws[0].frame, smear);
      ScribbledKeeps(s.view, b, o.image, o.author);
    }
  }

  lemma DrawnView(s: System, n: nat, lost: bool, gl: S.ShowEnv)
    requires Inv(s) && n <= |Inbox(s.net)|
    ensures var t := Drawn(s, n, lost, gl);
            && Facts(t.view) && Redrawn(s.view, t.view) && t.game == s.game
            && (lost || n == 0 ==> t.view == s.view && t.gone == s.gone)
  {
    assert n > 0 ==> Inbox(s.net)[..n][0] in Inbox(s.net);
    WrittenView(s, S.TurnUploads(s.screen, Inbox(s.net)[..n], lost, gl), gl.smear);
  }

  /** The game serving an abandoned connection cannot disturb the view: until
      the game turns to the newest one, nothing on screen is relied on. */
  lemma StalePictures(v: ViewState, r: ViewState, gone: map<S.Source, Staged>, kept: map<S.Source, Staged>, net: Net,
                      next: Net, screen: S.Screen, shown: S.Screen)
    requires screen.Valid() && shown.Valid() && Pictures(v, gone, net, screen) && !net.atLive
    requires next.frames == net.frames && next.ctl == net.ctl && next.alive == net.alive && next.atLive == net.atLive
    requires net.stale == [] ==> next.stale == [] && r == v && kept == gone
    requires net.stale == [] ==> shown == screen || shown == screen.(hasFrame := false)
    requires Redrawn(v, r)
    ensures Pictures(r, kept, next, shown)
  {
  }

  lemma LostPictures(v: ViewState, gone: map<S.Source, Staged>, net: Net, next: Net, screen: S.Screen, shown: S.Screen)
    requires screen.Valid() && shown.Valid() && Flow(v, net) && Pictures(v, gone, net, screen)
    requires next.frames == [] && next.ctl == net.ctl && next.stale == net.stale && !next.alive
    requires shown == screen.(hasFrame := shown.hasFrame, collided := shown.collided)
    requires net.frames == [] ==> shown.collided == screen.collided
    ensures Pictures(v, gone, next, shown)
  {
  }

  /** A frame whose descriptors were taken away changes no texture. */
  lemma LostTurn(screen: S.Screen, batch: seq<Frame>, env: S.ShowEnv)
    requires screen.Valid() && forall f | f in batch :: S.FrameValid(f)
    ensures var t := S.Turn(screen, batch, true, env).0;
            && t == screen.(hasFrame := t.hasFrame, collided := t.collided)
            && (batch == [] ==> t == screen.(hasFrame := false))
  {
  }

  lemma ServedPictures(s: System, n: nat, gl: S.ShowEnv, ack: AckMsg, next: Net)
    requires Inv(s) && s.view.link.connected && s.net.atLive && 0 < n <= |s.net.frames|
    requires next.frames == [] && next.stale == [] && next.alive == s.net.alive && next.atLive
    requires Acks(next.ctl) == [] || Acks(next.ctl) == [ack]
    requires (ack.code == Accepted) == S.Show(S.Keep(s.screen, false), s.net.frames[0], gl).1
    ensures var t := Drawn(s, n, false, gl); Flow(t.view, next) && Pictures(t.view, t.gone, next, t.screen)
  {
    DrawnView(s, n, false, gl);
    if ack.code == Accepted {
      ShowPictures(s, n, gl);
    }
  }

  predicate ValidNet(net: Net) {
    AllValid(net.frames) && (forall k | 0 <= k < |net.stale| :: AllValid(net.stale[k]))
    && net.queued == 0 && (net.atLive ==> net.stale == [])
  }

  lemma ServedValid(net: Net, n: nat, lost: bool)
    requires ValidNet(net) && n <= |Inbox(net)|
    ensures var next := Served(net, n, lost); ValidNet(next) && (net.stale == [] ==> next.stale == [])
    ensures !net.atLive ==> var next := Served(net, n, lost); next == net.(stale := next.stale)
  {
    if !net.atLive && net.stale != [] {
      assert AllValid(net.stale[0]) && AllValid(net.stale[0][n..]);
    }
  }

  lemma StaleTurnMoves(s: System, n: nat, lost: bool, gl: S.ShowEnv, stable: bool, ackSent: bool)
    requires Inv(s) && !s.net.atLive && n <= |Inbox(s.net)|
    ensures Inv(Turned(s, n, lost, gl, stable, ackSent))
  {
    var batch := Inbox(s.net)[..n];
    var t := Drawn(s, n, lost, gl);
    DrawnView(s, n, lost, gl);
    ServedValid(s.net, n, lost);
    if lost {
      LostTurn(s.screen, batch, gl);
    }
    hide Facts, Pictures, Fits, Written, Served, Answer;
    if s.view.link.connected {
      StalePictures(s.view, t.view, s.gone, t.gone, s.net, t.net, s.screen, t.screen);
    }
  }

  lemma LostTurnMoves(s: System, n: nat, gl: S.ShowEnv, stable: bool, ackSent: bool)
    requires Inv(s) && s.net.atLive && n <= |Inbox(s.net)|
    ensures Inv(Turned(s, n, true, gl, stable, ackSent))
  {
    var batch := Inbox(s.net)[..n];
    DrawnView(s, n, true, gl);
    LostTurn(s.screen, batch, gl);
    if s.view.link.connected {
      LostPictures(s.view, s.gone, s.net, Served(s.net, n, true), s.screen, S.Turn(s.screen, batch, true, gl).0);
    }
  }

  lemma LiveTurnMoves(s: System, n: nat, gl: S.ShowEnv, stable: bool, ackSent: bool)
    requires Inv(s) && s.net.atLive && 0 < n <= |Inbox(s.net)|
    ensures Inv(Turned(s, n, false, gl, stable, ackSent))
  {
    var t := Turned(s, n, false, gl, stable, ackSent);
    DrawnView(s, n, false, gl);
    if s.view.link.connected {
      var f := s.net.frames[0];
      var ok := S.Show(S.Keep(s.screen, false), f, gl).1;
      var ack := BuildAck(s.game, ok, stable);
      assert s.net.frames == [f] && s.net.frames[..n][0] == f && S.Bare(gl, false) == gl;
      assert Acks([AckRecord(ack)]) == [ack];
      AcksAppend(s.net.ctl, [AckRecord(ack)]);
      ServedPictures(s, n, gl, ack, t.net);
    }
  }

  lemma TurnMoves(s: System, n: nat, lost: bool, gl: S.ShowEnv, stable: bool, ackSent: bool)
    requires Inv(s) && n <= |Inbox(s.net)|
    ensures Inv(Turned(s, n, lost, gl, stable, ackSent))
  {
    if !s.net.atLive {
      StaleTurnMoves(s, n, lost, gl, stable, ackSent);
    } else if lost {
      LostTurnMoves(s, n, gl, stable, ackSent);
    } else if n > 0 {
      LiveTurnMoves(s, n, gl, stable, ackSent);
    } else {
      DrawnView(s, n, lost, gl);
      assert s.net.frames[0..] == s.net.frames;
    }
  }

  lemma DiscardsNeverAccept(acks: seq<AckMsg>, n: nat)
    requires Accepts(acks + Acks(Discards(n)))
    ensures Accepts(acks)
  {
    DiscardAcks(n);
    var more := Acks(Discards(n));
    forall j | 0 <= j < |more| ensures more[j].code == Discarded {
      assert more[j] in more;
    }
    var k :| 0 <= k < |acks + more| && (acks + more)[k].code == Accepted;
    assert k < |acks| && acks[k].code == Accepted;
  }

  /** Dropped frames are answered, and never with ACCEPTED. */
  lemma DroppedPictures(v: ViewState, gone: map<S.Source, Staged>, net: Net, next: Net, screen: S.Screen, n: nat)
    requires screen.Valid() && Flow(v, net) && Pictures(v, gone, net, screen) && n <= |net.frames|
    requires next.frames == [] || (n == 0 && next.frames == net.frames)
    requires next.alive == net.alive && next.stale == net.stale && next.atLive == net.atLive
    requires next.ctl == net.ctl || Acks(next.ctl) == Acks(net.ctl) + Acks(Discards(n))
    ensures Flow(v, next) && Pictures(v, gone, next, screen)
  {
    DiscardAcks(n);
    if next.ctl != net.ctl && Accepts(Acks(next.ctl)) {
      DiscardsNeverAccept(Acks(net.ctl), n);
    }
  }

  lemma HiddenMoves(s: System, n: nat, lost: bool, ackSent: bool)
    requires Inv(s) && n <= |Inbox(s.net)|
    ensures Inv(Hidden(s, n, lost, ackSent))
  {
    var t := Hidden(s, n, lost, ackSent);
    ServedValid(s.net, n, lost);
    if s.view.link.connected {
      if !s.net.atLive {
        StalePictures(s.view, s.view, s.gone, s.gone, s.net, t.net, s.screen, t.screen);
      } else {
        LiveHidden(s, n, lost, ackSent);
      }
    }
    hide Facts, Pictures, Served;
  }

  lemma LiveHidden(s: System, n: nat, lost: bool, ackSent: bool)
    requires Inv(s) && n <= |Inbox(s.net)| && s.view.link.connected && s.net.atLive
    ensures var t := Hidden(s, n, lost, ackSent); Flow(t.view, t.net) && Pictures(t.view, t.gone, t.net, t.screen)
  {
    var t := Hidden(s, n, lost, ackSent);
    AcksAppend(s.net.ctl, Discards(n));
    var dropped := t.net.(alive := s.net.alive, atLive := true);
    assert n == 0 ==> s.net.frames[n..] == s.net.frames;
    hide Facts, Pictures, Fits;
    DroppedPictures(s.view, s.gone, s.net, dropped, s.screen, n);
    if lost {
      LostPictures(s.view, s.gone, dropped, t.net, s.screen, t.screen);
    }
  }

  // ----- The other steps -----

  lemma TaskMoves(s: System, up: bool, inited: bool)
    requires Inv(s)
    ensures Inv(Tasked(s, up, inited))
  {
    ConnectTaskKeeps(s.view, up, inited);
  }

  lemma LinkFailsMoves(s: System, closed: bool)
    requires Inv(s)
    ensures Inv(Failed(s, closed))
  {
    if s.view.link.connected {
      UnackedPictures(s.view, s.gone, s.net, Failed(s, closed).net, s.screen);
    }
  }

  lemma GameAsksMoves(s: System, q: Request)
    requires Inv(s)
    ensures Inv(s.(net := Asked(s.net, q)))
  {
    AcksAppend(s.net.ctl, [RequestRecord(q)]);
    assert Acks([RequestRecord(q)]) == [] && Acks(s.net.ctl) + [] == Acks(s.net.ctl);
  }

  lemma GameTurnsToMoves(s: System)
    requires Inv(s) && s.net.alive && s.net.stale == []
    ensures Inv(s.(net := s.net.(atLive := true)))
  {
  }

  lemma TextureFailsMoves(s: System)
    requires Inv(s)
    ensures Inv(s.(screen := S.Killed(s.screen)))
  {
  }

  predicate IsCallback(a: Action) {
    a.Paint? || a.Accelerate? || a.Visibility? || a.PageLoaded?
  }

  lemma PaintMoves(s: System, a: Action)
    requires Inv(s) && a.Paint? && Enabled(s, a)
    ensures Inv(Moved(s, OnPaint(s.view, a.isView, a.source, a.w, a.h, a.dirty, a.env)))
  {
    OnPaintKeeps(s.view, a.isView, a.source, a.w, a.h, a.dirty, a.env);
    OnPaintSends(s.view, a.isView, a.source, a.w, a.h, a.dirty, a.env);
    OnPaintRests(s.view, a.isView, a.source, a.w, a.h, a.dirty, a.env);
    ViewMoves(s, OnPaint(s.view, a.isView, a.source, a.w, a.h, a.dirty, a.env));
  }

  lemma AccelerateMoves(s: System, a: Action)
    requires Inv(s) && a.Accelerate? && Enabled(s, a)
    ensures Inv(Moved(s, OnAcceleratedPaint(s.view, a.isView, a.info, a.dirty, a.env)))
  {
    OnAcceleratedPaintKeeps(s.view, a.isView, a.info, a.dirty, a.env);
    OnAcceleratedPaintSends(s.view, a.isView, a.info, a.dirty, a.env);
    OnAcceleratedPaintRests(s.view, a.isView, a.info, a.dirty, a.env);
    ViewMoves(s, OnAcceleratedPaint(s.view, a.isView, a.info, a.dirty, a.env));
  }

  lemma VisibilityMoves(s: System, show: bool)
    requires Inv(s)
    ensures Inv(Moved(s, SetOverlayVisible(s.view, show)))
  {
    SetOverlayVisibleKeeps(s.view, show);
    SetOverlayVisibleQuiet(s.view, show);
    SetOverlayVisibleRests(s.view, show);
    ViewMoves(s, SetOverlayVisible(s.view, show));
  }

  lemma PageLoadedMoves(s: System, isMain: bool, isBlank: bool)
    requires Inv(s)
    ensures Inv(Moved(s, OnLoadEnd(s.view, isMain, isBlank)))
  {
    OnLoadEndKeeps(s.view, isMain, isBlank);
    ViewMoves(s, OnLoadEnd(s.view, isMain, isBlank));
  }

  lemma CallbackMoves(s: System, a: Action)
    requires Inv(s) && Enabled(s, a) && IsCallback(a)
    ensures Inv(Moved(s, ViewAfter(s.view, a)))
  {
    match a
    case Paint(_, _, _, _, _, _) => PaintMoves(s, a);
    case Accelerate(_, _, _, _) => AccelerateMoves(s, a);
    case Visibility(show) => VisibilityMoves(s, show);
    case PageLoaded(isMain, isBlank) => PageLoadedMoves(s, isMain, isBlank);
  }

  lemma GameMoves(s: System, a: Action)
    requires Inv(s) && Enabled(s, a) && !IsCallback(a) && !a.Poll? && !a.Task?
    ensures Inv(Stepped(s, a))
  {
    hide Turned, Hidden;
    match a
    case GameTurn(n, lost, gl, stable, ackSent) => TurnMoves(s, n, lost, gl, stable, ackSent);
    case GameHidden(n, lost, ackSent) => HiddenMoves(s, n, lost, ackSent);
    case GameAsks(q) => GameAsksMoves(s, q);
    case GameTurnsTo => GameTurnsToMoves(s);
    case GameResizes(w, h) =>
    case TextureFails => TextureFailsMoves(s);
    case LinkFails(closed) => LinkFailsMoves(s, closed);
  }

  lemma StepIsTurn(s: System, a: Action)
    requires WellFormed(s) && Enabled(s, a) && a.GameTurn?
    ensures Stepped(s, a) == Turned(s, a.n, a.lost, a.gl, a.stable, a.ackSent)
  {
    hide WellFormed, Turned;
  }

  lemma StepIsPoll(s: System, a: Action)
    requires WellFormed(s) && a.Poll?
    ensures Stepped(s, a) == Polled(s, a.first, a.avails, a.hangup, a.env)
  {
    hide WellFormed, Polled;
  }

  lemma SteppedKeeps(s: System, a: Action)
    requires Inv(s) && Enabled(s, a)
    ensures Inv(Stepped(s, a))
  {
    if IsCallback(a) {
      CallbackMoves(s, a);
    } else if a.Poll? {
      PollMoves(s, a.first, a.avails, a.hangup, a.env);
    } else if a.Task? {
      TaskMoves(s, a.up, a.inited);
    } else {
      GameMoves(s, a);
    }
  }
}
