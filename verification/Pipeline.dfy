/** The whole frame pipeline as a transition system: the view's callbacks, the
    connection, and the game's turns, interleaved arbitrarily. */
module Pipeline {
  import opened Bytes
  import opened ShmDelta
  import opened DirtyRoi
  import opened GpuBuf
  import opened ControlWire
  import opened ControlStream
  import opened ViewState
  import S = Screen

  /** The newest connection: are both ends still joined, is the view's own end
      still open, has the game turned to it yet; frames on their way to the game,
      records on their way back, the view's byte of queued requests; and, for the
      proof, how many NEXT_FRAMEs the game sent on it and whether a SHUTDOWN.
      The frames of abandoned connections are served before it, one after another. */
  datatype Net = Net(alive: bool, open: bool, atLive: bool, frames: seq<Frame>, ctl: seq<Record>, queued: nat,
                     stale: seq<seq<Frame>>, asked: nat, shut: bool)

  /** The game's surface size and what is pending of it. sizeLost, for the proof:
      the ACK that carried this size never reached the view. */
  datatype Game = Game(w: int, h: int, notified: bool, sizePending: bool, sizeLost: bool)

  /** gone: the last contents of buffer objects that the view has let go. */
  datatype System = System(view: ViewState, net: Net, screen: S.Screen, game: Game, gone: map<S.Source, Staged>)

  /** Where a poll finds the connection closed, if it does. */
  datatype Hangup = StillUp | AtAck | AtRequest

  datatype Action =
    | Paint(isView: bool, source: Option<seq<byte>>, w: int, h: int, dirty: seq<DirtyRect>, env: Env)
    | Accelerate(isView: bool, info: Accelerated, dirty: seq<DirtyRect>, env: Env)
    | Visibility(show: bool)
    | PageLoaded(isMain: bool, isBlank: bool)
    | Poll(first: nat, avails: seq<nat>, hangup: Hangup, env: Env)
    | Task(up: bool, inited: bool)
    | GameTurn(n: nat, lost: bool, gl: S.ShowEnv, stable: bool, ackSent: bool)
    | GameHidden(n: nat, lost: bool, ackSent: bool)
    | GameAsks(request: Request)
    | GameTurnsTo
    | GameResizes(w: int, h: int)
    | TextureFails
    | LinkFails(closed: bool)

  // ----- The connection -----

  /** What the callback appended to the wire goes out if anyone is there. */
  function Carry(net: Net, v: ViewState, r: ViewState): Net {
    if net.alive && |v.hist.wire| < |r.hist.wire| then net.(frames := net.frames + r.hist.wire[|v.hist.wire|..])
    else net
  }

  function FirstAck(acks: seq<AckMsg>): Option<AckMsg> {
    if acks == [] then None else Some(acks[0])
  }

  /** A fresh connection; what was still queued on the old one turns stale, after
      what older ones left. */
  function Fresh(net: Net): Net {
    Net(true, true, false, [], [], 0, if net.frames == [] then net.stale else net.stale + [net.frames], 0, false)
  }

  /** The view's end is closed; what was unread is gone. */
  function Closed(net: Net): Net {
    net.(alive := false, open := false, ctl := [], queued := 0)
  }

  function Sized(ack: AckMsg): bool { ack.w > 0 && ack.h > 0 }

  predicate SomeSized(acks: seq<AckMsg>) {
    exists k :: 0 <= k < |acks| && Sized(acks[k])
  }

  /** The unread ACKs are lost; is one of them the answer to the pending size? */
  function Missing(g: Game, acks: seq<AckMsg>): Game {
    g.(sizeLost := g.sizeLost || (!g.sizePending && SomeSized(acks)))
  }

  // ----- Polling -----

  /** What successive receives return and take, one per entry of avails and then
      one on which nothing has arrived, or the connection turns out closed. A
      queued request comes first; a SHUTDOWN ends the loop. */
  datatype Received = Received(reqs: seq<Request>, k: nat, queued: nat, up: bool)

  function ReadRequests(ctl: seq<Record>, queued: nat, preserveAck: bool, avails: seq<nat>, calls: nat, hangup: bool)
    : (r: Received)
    requires queued <= 2
    ensures r.k <= |ctl| && r.queued <= 2
    decreases calls
  {
    if calls == 0 then Received([], 0, queued, true)
    else if queued != 0 then Then(ByteType(queued - 1), ctl, 0, preserveAck, avails, calls, hangup)
    else if avails == [] then Received([], 0, 0, !hangup)
    else
      var k := RequestTakes(ctl, avails[0], preserveAck, LOOP_LIMIT);
      if k > 0 && ctl[k - 1].RequestRecord?
      then Then(ctl[k - 1].request, ctl, k, preserveAck, avails[1..], calls, hangup)
      else Received([], k, 0, true)
  }

  /** One request was returned, k records were taken for it. */
  function Then(q: Request, ctl: seq<Record>, k: nat, preserveAck: bool, avails: seq<nat>, calls: nat, hangup: bool)
    : (r: Received)
    requires k <= |ctl| && calls > 0
    ensures r.k <= |ctl| && r.queued <= 2
    decreases calls, 0
  {
    if q == Shutdown then Received([q], k, 0, true)
    else
      var rest := ReadRequests(ctl[k..], 0, preserveAck, avails, calls - 1, hangup);
      Received([q] + rest.reqs, k + rest.k, rest.queued, rest.up)
  }

  /** What one poll reads: the ACK if a frame is pending, then the requests. */
  datatype Reading = Reading(ack: Option<AckMsg>, reqs: seq<Request>, k: nat, queued: nat, up: bool)

  function Read(pending: bool, net: Net, first: nat, avails: seq<nat>, hangup: Hangup): (r: Reading)
    requires net.queued <= 2
    ensures r.k <= |net.ctl| && r.queued <= 2
  {
    if pending && hangup == AtAck then Reading(None, [], 0, 0, false)
    else
      var a := if pending then AckTakes(net.ctl, first, LOOP_LIMIT) else 0;
      QueueBound(net.queued, net.ctl[..a]);
      var ack := FirstAck(Acks(net.ctl[..a]));
      var rest := ReadRequests(net.ctl[a..], Queue(net.queued, net.ctl[..a]), pending && ack.None?, avails,
                               POLL_LIMIT, hangup == AtRequest);
      Reading(ack, rest.reqs, a + rest.k, rest.queued, rest.up)
  }

  lemma {:induction false} QueueBound(queued: nat, rs: seq<Record>)
    requires queued <= 2
    ensures Queue(queued, rs) <= 2
    decreases |rs|
  {
    if rs != [] {
      QueueBound(if rs[0].RequestRecord? then Coalesce(queued, rs[0].request) else queued, rs[1..]);
    }
  }

  // ----- Buffer objects -----

  /** The view's buffer is still this object. */
  predicate Live(bufs: Buffers, src: S.Source) {
    src.StagedBo? && bufs.At(src.buffer).present && bufs.At(src.buffer).serial == src.serial
  }

  /** An object that the view replaced lives on behind the textures that share it. */
  function RetireOne(gone: map<S.Source, Staged>, b: BufName, was: Buffers, now: Buffers): map<S.Source, Staged> {
    var src := S.StagedBo(b, was.At(b).serial);
    if Live(was, src) && !Live(now, src) then gone[src := was.At(b)] else gone
  }

  function Retire(gone: map<S.Source, Staged>, was: Buffers, now: Buffers): map<S.Source, Staged> {
    RetireOne(RetireOne(gone, Main, was, now), Spare, was, now)
  }

  function Object(bufs: Buffers, gone: map<S.Source, Staged>, src: S.Source): Option<Staged> {
    if Live(bufs, src) then Some(bufs.At(src.buffer)) else if src in gone then Some(gone[src]) else None
  }

  /** An object after an upload of the game. A rectangle over what the view had
      staged leaves something of both. */
  function Overlaid(o: Staged, f: Frame, smear: seq<byte>): (r: Staged)
    requires S.FrameValid(f) && (f.ShmFull? || f.ShmRect?)
    ensures |r.image| == |o.image| && r.author != ByView && r == o.(image := r.image, author := r.author)
  {
    match f
    case ShmFull(w, h, px) =>
      o.(image := if o.w == w && o.h == h && |px| == |o.image| then px else Unwritten(smear, |o.image|),
         author := ByGame)
    case ShmRect(w, h, packet) =>
      CanvasFits(w, h);
      var patched := if o.w == w && o.h == h then ApplyPacket(o.image, w, h, packet) else None;
      o.(image := if patched.Some? then patched.value else Unwritten(smear, |o.image|),
         author := if o.author == ByView then ByBoth else o.author)
  }

  /** An object that nobody else writes any more, wholly overwritten. */
  function Adopted(src: S.Source, f: Frame): Staged
    requires src.StagedBo? && f.ShmFull?
  {
    Staged(true, f.w, f.h, true, false, Identifier(src.serial), src.serial, f.px, ByGame)
  }

  /** The upload of a turn lands in the memory behind its texture. CEF's pooled
      buffers are not followed. */
  function Written(s: System, ws: seq<S.Write>, smear: seq<byte>): System
    requires Fits(s.view)
    requires forall k | 0 <= k < |ws| :: S.FrameValid(ws[k].frame) && (ws[k].frame.ShmFull? || ws[k].frame.ShmRect?)
  {
    if ws == [] || ws[0].source.PooledBo? then s
    else
      var src, f := ws[0].source, ws[0].frame;
      if Live(s.view.gpu.bufs, src) then
        var o := Overlaid(s.view.gpu.bufs.At(src.buffer), f, smear);
        s.(view := Scribbled(s.view, src.buffer, o.image, o.author))
      else if f.ShmFull? then s.(gone := s.gone[src := Adopted(src, f)])
      else if src in s.gone then s.(gone := s.gone[src := Overlaid(s.gone[src], f, smear)])
      else s
  }

  // ----- The game -----

  /** The ACK of a turn carries the size once it has been stable long enough. */
  function BuildAck(g: Game, accepted: bool, stable: bool): AckMsg {
    var code := if accepted then Accepted else Rejected;
    if g.sizePending && stable then AckMsg(code, g.w, g.h) else AckMsg(code, 0, 0)
  }

  function AfterAck(g: Game, stable: bool, delivered: bool): Game {
    if g.sizePending && stable then g.(sizePending := false, sizeLost := !delivered) else g
  }

  function Inbox(net: Net): seq<Frame> {
    if net.atLive then net.frames else if net.stale == [] then [] else net.stale[0]
  }

  /** The game takes n frames off its connection, which may then turn out to be
      closed: if it was the newest one that is the end of it, otherwise the next
      one is accepted. */
  function Served(net: Net, n: nat, lost: bool): Net
    requires n <= |Inbox(net)|
  {
    if net.atLive then
      if lost then net.(alive := false, atLive := false, frames := []) else net.(frames := net.frames[n..])
    else if net.stale == [] then net
    else if lost || n == |net.stale[0]| then net.(stale := net.stale[1..])
    else net.(stale := net.stale[0 := net.stale[0][n..]])
  }

  function Answer(net: Net, ack: AckMsg, delivered: bool): Net {
    if delivered then net.(ctl := net.ctl + [AckRecord(ack)]) else net
  }

  /** A discarding ACK for each of n dropped frames. */
  function Discards(n: nat): seq<Record> {
    seq(n, k => AckRecord(AckMsg(Discarded, 0, 0)))
  }

  /** What the first frame of a turn, shown, does to textures and memory. */
  function Drawn(s: System, n: nat, lost: bool, gl: S.ShowEnv): System
    requires Fits(s.view) && n <= |Inbox(s.net)|
    requires s.screen.Valid() && forall f | f in Inbox(s.net) :: S.FrameValid(f)
  {
    var batch := Inbox(s.net)[..n];
    var ws := S.TurnUploads(s.screen, batch, lost, gl);
    assert batch != [] ==> batch[0] in Inbox(s.net);
    Written(s, ws, gl.smear).(screen := S.Turn(s.screen, batch, lost, gl).0, net := Served(s.net, n, lost))
  }

  function Turned(s: System, n: nat, lost: bool, gl: S.ShowEnv, stable: bool, ackSent: bool): System
    requires Fits(s.view) && n <= |Inbox(s.net)|
    requires s.screen.Valid() && forall f | f in Inbox(s.net) :: S.FrameValid(f)
  {
    var t := Drawn(s, n, lost, gl);
    if n == 0 || lost then t
    else
      var accepted := S.Turn(s.screen, Inbox(s.net)[..n], lost, gl).1;
      var delivered := ackSent && s.net.atLive && s.net.alive;
      t.(net := Answer(t.net, BuildAck(s.game, accepted, stable), delivered),
         game := AfterAck(s.game, stable, delivered))
  }

  function Hidden(s: System, n: nat, lost: bool, ackSent: bool): System
    requires n <= |Inbox(s.net)|
  {
    var net := Served(s.net, n, lost);
    var screen := if lost then s.screen.(hasFrame := false) else s.screen;
    if ackSent && s.net.atLive && s.net.alive then s.(net := net.(ctl := net.ctl + Discards(n)), screen := screen)
    else s.(net := net, screen := screen)
  }

  /** The game asks for a frame or for the end. Each of its turns asks too; that
      is this step and then the turn. */
  function Asked(net: Net, q: Request): Net {
    if !net.alive || !net.atLive then net
    else
      net.(ctl := net.ctl + [RequestRecord(q)], asked := net.asked + (if q == NextFrame then 1 else 0),
           shut := net.shut || q == Shutdown)
  }

  /** A new size becomes pending, and the fate of the one before it immaterial. */
  function Resized(g: Game, w: int, h: int): Game {
    if w < 1 || h < 1 || (w == g.w && h == g.h) then g
    else g.(w := w, h := h, notified := true, sizePending := true, sizeLost := false)
  }

  // ----- Steps -----

  predicate Enabled(s: System, a: Action) {
    match a
    case Paint(_, source, w, h, _, _) =>
      w < INT_LIMIT && h < INT_LIMIT && (source.Some? && w > 0 && h > 0 ==> |source.value| == w * h * 4)
    case Accelerate(_, info, _, _) => info.Valid()
    case GameTurn(n, _, _, _, _) => n <= |Inbox(s.net)|
    case GameHidden(n, _, _) => n <= |Inbox(s.net)|
    case GameTurnsTo => s.net.alive && !s.net.atLive && s.net.stale == []
    case _ => true
  }

  predicate AllValid(frames: seq<Frame>) {
    forall f | f in frames :: S.FrameValid(f)
  }

  predicate WellFormed(s: System) {
    && Fits(s.view) && s.screen.Valid() && s.net.queued <= 2
    && AllValid(s.net.frames)
    && (forall k | 0 <= k < |s.net.stale| :: AllValid(s.net.stale[k]))
  }

  ghost function ViewAfter(v: ViewState, a: Action): ViewState
    requires Fits(v)
    requires a.Paint? ==> a.w < INT_LIMIT && a.h < INT_LIMIT
                          && (a.source.Some? && a.w > 0 && a.h > 0 ==> |a.source.value| == a.w * a.h * 4)
    requires a.Accelerate? ==> a.info.Valid()
  {
    match a
    case Paint(isView, source, w, h, dirty, env) => OnPaint(v, isView, source, w, h, dirty, env)
    case Accelerate(isView, info, dirty, env) => OnAcceleratedPaint(v, isView, info, dirty, env)
    case Visibility(show) => SetOverlayVisible(v, show)
    case PageLoaded(isMain, isBlank) => OnLoadEnd(v, isMain, isBlank)
    case _ => v
  }

  /** The view after a callback, what it sent on its way, what it let go retired. */
  function Moved(s: System, r: ViewState): System {
    s.(view := r, net := Carry(s.net, s.view, r), gone := Retire(s.gone, s.view.gpu.bufs, r.gpu.bufs))
  }

  /** The connection after a poll has read. */
  function AfterRead(s: System, r: Reading): System
    requires r.k <= |s.net.ctl|
  {
    if r.up then s.(net := s.net.(ctl := s.net.ctl[r.k..], queued := r.queued))
    else s.(net := Closed(s.net), game := Missing(s.game, Acks(s.net.ctl[r.k..])))
  }

  /** A poll reads the records that have arrived, answers them, and may send. */
  ghost function Polled(s: System, first: nat, avails: seq<nat>, hangup: Hangup, env: Env): System
    requires Fits(s.view) && s.net.queued <= 2
  {
    if !s.view.link.connected then s
    else if !s.net.open then Moved(s, PollSocket(s.view, None, [], false, env))
    else
      var r := Read(s.view.pace.pending, s.net, first, avails, hangup);
      Moved(AfterRead(s, r), PollSocket(s.view, r.ack, r.reqs, r.up, env))
  }

  /** The connection task: a new connection, or the old one given up. */
  function Tasked(s: System, up: bool, inited: bool): System
    requires Fits(s.view)
  {
    var r := ConnectTask(s.view, up, inited);
    if r.link.connected == s.view.link.connected then s.(view := r)
    else
      s.(view := r, net := if r.link.connected then Fresh(s.net) else s.net.(alive := false),
         game := Missing(s.game, Acks(s.net.ctl)))
  }

  function Failed(s: System, closed: bool): System {
    if closed then s.(net := Closed(s.net), game := Missing(s.game, Acks(s.net.ctl)))
    else s.(net := s.net.(alive := false))
  }

  ghost function Stepped(s: System, a: Action): System
    requires WellFormed(s) && Enabled(s, a)
  {
    match a
    case Poll(first, avails, hangup, env) => Polled(s, first, avails, hangup, env)
    case Task(up, inited) => Tasked(s, up, inited)
    case GameTurn(n, lost, gl, stable, ackSent) => Turned(s, n, lost, gl, stable, ackSent)
    case GameHidden(n, lost, ackSent) => Hidden(s, n, lost, ackSent)
    case GameAsks(q) => s.(net := Asked(s.net, q))
    case GameTurnsTo => s.(net := s.net.(atLive := true))
    case GameResizes(w, h) => s.(game := Resized(s.game, w, h))
    case TextureFails => s.(screen := S.Killed(s.screen))
    case LinkFails(closed) => Failed(s, closed)
    case _ => Moved(s, ViewAfter(s.view, a))
  }

  ghost function Initial(useDma: bool, roiEnabled: bool, w: int, h: int): System {
    System(Start(useDma, roiEnabled, w, h), Net(false, false, false, [], [], 0, [], 0, false), S.BLANK,
           Game(0, 0, false, false, false), map[])
  }
}
