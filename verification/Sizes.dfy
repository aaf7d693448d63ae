/** The render size in every run: it follows the game's, unless an answer with a
    size was lost. */
module Sizes {
  import opened Bytes
  import opened ControlWire
  import opened ControlStream
  import opened ViewState
  import opened ViewFacts
  import opened ViewSends
  import opened Pipeline
  import opened PollFacts
  import opened PipelineFacts
  import opened PipelineRuns
  import S = Screen

  /** Once notified, with nothing pending and no sized ACK lost, either an unread
      ACK carries the game's size or the view already has it. */
  predicate SizeAgrees(v: ViewState, acks: seq<AckMsg>, g: Game) {
    && (g.notified ==> g.w >= 1 && g.h >= 1)
    && (g.sizePending ==> !g.sizeLost)
    && (g.notified && !g.sizeLost && !g.sizePending ==>
          if SomeSized(acks) then forall k | 0 <= k < |acks| && Sized(acks[k]) :: acks[k].w == g.w && acks[k].h == g.h
          else v.mode.renderW == g.w && v.mode.renderH == g.h)
  }

  /** While an older connection is served the newest has no answers yet; and once
      the latest size is lost no unread ACK carries one. */
  predicate SizeInv(s: System) {
    && SizeAgrees(s.view, Acks(s.net.ctl), s.game) && (s.net.alive ==> s.view.link.connected)
    && (s.net.stale != [] ==> Acks(s.net.ctl) == [])
    && (s.game.sizeLost && s.view.link.connected ==> !SomeSized(Acks(s.net.ctl)))
  }

  lemma UnsizedAppend(v: ViewState, acks: seq<AckMsg>, more: seq<AckMsg>, g: Game)
    requires SizeAgrees(v, acks, g) && forall k | 0 <= k < |more| :: !Sized(more[k])
    ensures SizeAgrees(v, acks + more, g) && (SomeSized(acks + more) <==> SomeSized(acks))
  {
    var all := acks + more;
    if SomeSized(all) {
      var k :| 0 <= k < |all| && Sized(all[k]);
      assert k < |acks| && Sized(acks[k]);
    }
    if SomeSized(acks) {
      var k :| 0 <= k < |acks| && Sized(acks[k]);
      assert all[k] == acks[k];
    }
  }

  /** Appending the answer of a turn. */
  lemma AnswerSizes(s: System, ack: AckMsg, accepted: bool, stable: bool)
    requires Inv(s) && SizeInv(s) && s.net.atLive && s.net.alive && s.net.frames != []
    requires ack == BuildAck(s.game, accepted, stable)
    ensures SizeInv(s.(net := Answer(s.net, ack, true), game := AfterAck(s.game, stable, true)))
  {
    assert Acks([AckRecord(ack)]) == [ack];
    AcksAppend(s.net.ctl, [AckRecord(ack)]);
    if !(s.game.sizePending && stable) {
      UnsizedAppend(s.view, Acks(s.net.ctl), [ack], s.game);
    } else {
      var acks := Acks(s.net.ctl + [AckRecord(ack)]);
      assert acks == [ack];
      assert s.game.notified ==> Sized(acks[0]);
    }
  }

  /** A turn that only takes frames off. */
  lemma ServedSizes(s: System, t: System, n: nat, lost: bool)
    requires Inv(s) && SizeInv(s) && n <= |Inbox(s.net)|
    requires t.net == Served(s.net, n, lost) && t.game == s.game
    requires t.view.mode == s.view.mode && t.view.link == s.view.link
    ensures SizeInv(t)
  {
  }

  lemma TurnSizes(s: System, n: nat, lost: bool, gl: S.ShowEnv, stable: bool, ackSent: bool)
    requires Inv(s) && SizeInv(s) && n <= |Inbox(s.net)|
    ensures SizeInv(Turned(s, n, lost, gl, stable, ackSent))
  {
    DrawnView(s, n, lost, gl);
    var t, u := Drawn(s, n, lost, gl), Turned(s, n, lost, gl, stable, ackSent);
    hide SizeInv, Facts, Pictures, Written, Served;
    ServedSizes(s, t, n, lost);
    ServedKeepsNet(s.net, n, lost);
    if n > 0 && !lost {
      var ack := BuildAck(s.game, S.Turn(s.screen, Inbox(s.net)[..n], lost, gl).1, stable);
      if ackSent && s.net.atLive && s.net.alive {
        AnswerSizes(s, ack, ack.code == Accepted, stable);
        SameSizes(s.(net := Answer(s.net, ack, true), game := AfterAck(s.game, stable, true)), u);
      } else {
        UnsentSizes(s, stable);
        SameSizes(s.(game := AfterAck(s.game, stable, false)), u);
      }
    }
  }

  lemma ServedKeepsNet(net: Net, n: nat, lost: bool)
    requires n <= |Inbox(net)|
    ensures var next := Served(net, n, lost);
            next.ctl == net.ctl && (next.alive ==> net.alive) && (next.stale != [] ==> net.stale != [])
  {
  }

  lemma SameSizes(x: System, u: System)
    requires SizeInv(x) && u.net.ctl == x.net.ctl && u.game == x.game
    requires u.view.mode == x.view.mode && u.view.link == x.view.link
    requires (u.net.alive ==> x.net.alive) && (u.net.stale != [] ==> x.net.stale != [])
    ensures SizeInv(u)
  {
  }

  /** A turn with a frame to answer finds no unread answer; its own is lost. */
  lemma UnsentSizes(s: System, stable: bool)
    requires Inv(s) && SizeInv(s) && Inbox(s.net) != []
    ensures SizeInv(s.(game := AfterAck(s.game, stable, false)))
  {
    if s.view.link.connected {
      assert Acks(s.net.ctl) == [];
    }
    hide Facts, Pictures, WellFormed;
  }

  lemma HiddenSizes(s: System, n: nat, lost: bool, ackSent: bool)
    requires SizeInv(s) && n <= |Inbox(s.net)|
    requires s.net.atLive ==> s.net.stale == []
    ensures SizeInv(Hidden(s, n, lost, ackSent))
  {
    AcksAppend(s.net.ctl, Discards(n));
    DiscardAcks(n);
    forall k | 0 <= k < |Acks(Discards(n))| ensures !Sized(Acks(Discards(n))[k]) {
      assert Acks(Discards(n))[k] in Acks(Discards(n));
    }
    UnsizedAppend(s.view, Acks(s.net.ctl), Acks(Discards(n)), s.game);
  }

  lemma SizeTaken(v: ViewState, a: ViewState, ack: AckMsg, g: Game)
    requires Acknowledged(v, a, ack) && SizeAgrees(v, [ack], g)
    ensures SizeAgrees(a, [], g) && !SomeSized([]) && (SomeSized([ack]) <==> Sized(ack))
  {
    assert [ack][0] == ack;
    assert Sized([ack][0]) ==> SomeSized([ack]);
  }

  /** Taking the ACK hands its size to the view; closing loses what was unread. */
  lemma AckSizes(s: System, r: Reading, readOk: bool)
    requires Inv(s) && SizeInv(s) && s.view.link.connected && r.k <= |s.net.ctl|
    requires r.ack.Some? ==> s.view.pace.pending
    requires Acks(s.net.ctl[..r.k]) == if r.ack.Some? then [r.ack.value] else []
    ensures SizeInv(AfterRead(s, r).(view := TakeAck(s.view, r.ack, readOk)))
  {
    var acks, rest := Acks(s.net.ctl), Acks(s.net.ctl[r.k..]);
    AcksSplit(s.net.ctl, r.k);
    if r.ack.Some? {
      ProcessAckAcknowledges(s.view, r.ack.value, readOk);
      assert acks == [r.ack.value] && rest == [];
      SizeTaken(s.view, TakeAck(s.view, r.ack, readOk), r.ack.value, s.game);
      hide Facts, Pictures, ProcessAck, SizeAgrees, SomeSized;
    } else {
      assert [] + rest == rest && acks == rest;
    }
  }

  /** A poll on an open connection is the reading, the ACK, and a callback that
      may send. */
  lemma OpenPoll(s: System, r: Reading, first: nat, avails: seq<nat>, hangup: Hangup, env: Env)
    returns (t: System, p: ViewState)
    requires Inv(s) && s.view.link.connected && s.net.open
    requires r == Read(s.view.pace.pending, s.net, first, avails, hangup)
    ensures t == AfterRead(s, r).(view := TakeAck(s.view, r.ack, env.readOk)) && Fits(p)
    ensures Sends(t.view, p) && Polled(s, first, avails, hangup, env) == Moved(t, p)
  {
    hide PollSocket, TakeAck, Read, Pictures;
    var u, a := AfterRead(s, r), TakeAck(s.view, r.ack, env.readOk);
    assert Facts(a) && a.gpu.bufs == s.view.gpu.bufs by {
      ReadTakes(s.view.pace.pending, s.net, first, avails, hangup);
      AckMoves(s, r.ack, u.net, r.k, env.readOk);
    }
    t, p := u.(view := a), PollSocket(a, None, r.reqs, r.up, env);
    assert Sends(a, p) by {
      GrantSends(a, r.reqs, r.up, env);
    }
    PolledIsMoved(u, a, r, env);
  }

  lemma MovedSizes(s: System, p: ViewState)
    requires SizeInv(s) && Sends(s.view, p)
    ensures SizeInv(Moved(s, p))
  {
  }

  lemma PollSizes(s: System, first: nat, avails: seq<nat>, hangup: Hangup, env: Env)
    requires Inv(s) && SizeInv(s)
    ensures SizeInv(Polled(s, first, avails, hangup, env))
  {
    if s.view.link.connected && !s.net.open {
      GrantSends(s.view, [], false, env);
      MovedSizes(s, PollSocket(s.view, None, [], false, env));
    } else if s.view.link.connected {
      var r := Read(s.view.pace.pending, s.net, first, avails, hangup);
      var t, p := OpenPoll(s, r, first, avails, hangup, env);
      ReadTakes(s.view.pace.pending, s.net, first, avails, hangup);
      AckSizes(s, r, env.readOk);
      MovedSizes(t, p);
    }
  }

  lemma CallbackSizes(s: System, a: Action)
    requires Inv(s) && SizeInv(s) && Enabled(s, a) && IsCallback(a)
    ensures SizeInv(Moved(s, ViewAfter(s.view, a)))
  {
    hide OnPaint, OnAcceleratedPaint, SetOverlayVisible, Facts;
    var v := s.view;
    match a
    case Paint(isView, source, w, h, dirty, env) => OnPaintSends(v, isView, source, w, h, dirty, env);
    case Accelerate(isView, info, dirty, env) => OnAcceleratedPaintSends(v, isView, info, dirty, env);
    case Visibility(show) => SetOverlayVisibleQuiet(v, show);
    case _ =>
  }

  lemma AskSizes(s: System, q: Request)
    requires SizeInv(s)
    ensures SizeInv(s.(net := Asked(s.net, q)))
  {
    AcksAppend(s.net.ctl, [RequestRecord(q)]);
    assert Acks([RequestRecord(q)]) == [];
    assert Acks(s.net.ctl) + [] == Acks(s.net.ctl);
  }

  lemma TaskSizes(s: System, up: bool, inited: bool)
    requires Inv(s) && SizeInv(s)
    ensures SizeInv(Tasked(s, up, inited))
  {
  }

  lemma GameSizes(s: System, a: Action)
    requires Inv(s) && SizeInv(s) && Enabled(s, a) && !IsCallback(a) && !a.Poll? && !a.Task?
    ensures SizeInv(Stepped(s, a))
  {
    hide SizeInv, WellFormed, Turned, Hidden;
    match a
    case GameTurn(n, lost, gl, stable, ackSent) => TurnSizes(s, n, lost, gl, stable, ackSent);
    case GameHidden(n, lost, ackSent) => HiddenSizes(s, n, lost, ackSent);
    case GameAsks(q) => AskSizes(s, q);
    case _ => QuietGameSizes(s, a);
  }

  lemma QuietGameSizes(s: System, a: Action)
    requires WellFormed(s) && SizeInv(s) && Enabled(s, a)
    requires a.GameResizes? || a.TextureFails? || a.LinkFails? || a.GameTurnsTo?
    ensures SizeInv(Stepped(s, a))
  {
    hide Fits;
  }

  lemma SteppedSizes(s: System, a: Action)
    requires Inv(s) && SizeInv(s) && Enabled(s, a)
    ensures SizeInv(Stepped(s, a))
  {
    hide Inv, SizeInv, WellFormed, Moved, Polled, Tasked;
    if IsCallback(a) {
      CallbackSizes(s, a);
    } else if a.Poll? {
      PollSizes(s, a.first, a.avails, a.hangup, a.env);
    } else if a.Task? {
      TaskSizes(s, a.up, a.inited);
    } else {
      GameSizes(s, a);
    }
  }

  lemma {:induction false} RunSizes(states: seq<System>, actions: seq<Action>, k: nat)
    requires Run(states, actions) && k < |states|
    ensures SizeInv(states[k])
  {
    hide Inv, WellFormed, Enabled, Stepped;
    if k > 0 {
      RunSizes(states, actions, k - 1);
      RunKeeps(states, actions, k - 1);
      SteppedSizes(states[k - 1], actions[k - 1]);
    }
  }

  predicate SameSize(v: ViewState, g: Game) {
    v.mode.renderW == g.w && v.mode.renderH == g.h
  }

  /** When the latest size is not pending, was not lost and no ACK is unread, the
      view renders at it. */
  lemma ResizeConverges(states: seq<System>, actions: seq<Action>, k: nat)
    requires Run(states, actions) && k < |states|
    requires states[k].game.notified && !states[k].game.sizePending && !states[k].game.sizeLost
    requires Acks(states[k].net.ctl) == []
    ensures SameSize(states[k].view, states[k].game)
  {
    RunSizes(states, actions, k);
  }

  /** The game is notified of another size. */
  predicate Renotifies(s: System, a: Action) {
    a.GameResizes? && Pipeline.Resized(s.game, a.w, a.h) != s.game
  }

  /** A lost one stays lost, and the view at the size it had, until the game is
      notified of another: from there on the sizes agree if and only if they
      happened to agree when it was lost. */
  lemma LostSizeStaysLost(states: seq<System>, actions: seq<Action>, j: nat, k: nat)
    requires Run(states, actions) && j <= k < |states| && states[j].game.sizeLost
    requires forall i | j <= i < k :: !Renotifies(states[i], actions[i])
    ensures states[k].game.sizeLost
    ensures SameSize(states[k].view, states[k].game) <==> SameSize(states[j].view, states[j].game)
  {
    StuckRun(states, actions, j, k);
  }

  lemma {:induction false} StuckRun(states: seq<System>, actions: seq<Action>, j: nat, k: nat)
    requires Run(states, actions) && j <= k < |states| && states[j].game.sizeLost
    requires forall i | j <= i < k :: !Renotifies(states[i], actions[i])
    ensures Stuck(states[j], states[k])
    decreases k
  {
    hide Inv, SizeInv, WellFormed, Enabled, Stepped, Renotifies;
    if j < k {
      StuckRun(states, actions, j, k - 1);
      RunKeeps(states, actions, k - 1);
      RunSizes(states, actions, k - 1);
      LostSizeStep(states[k - 1], actions[k - 1]);
      StuckTrans(states[j], states[k - 1], states[k]);
    }
  }

  lemma StuckTrans(s: System, t: System, u: System)
    requires Stuck(s, t) && Stuck(t, u)
    ensures Stuck(s, u)
  {
  }

  predicate SameRender(v: ViewState, r: ViewState) {
    r.mode.renderW == v.mode.renderW && r.mode.renderH == v.mode.renderH
  }

  /** Still lost, and both sizes as they were. */
  predicate Stuck(s: System, t: System) {
    SameRender(s.view, t.view) && t.game.sizeLost && t.game.w == s.game.w && t.game.h == s.game.h
  }

  lemma LostSizeStep(s: System, a: Action)
    requires Inv(s) && SizeInv(s) && Enabled(s, a) && s.game.sizeLost && !Renotifies(s, a)
    ensures Stuck(s, Stepped(s, a))
  {
    if IsCallback(a) {
      CallbackRender(s, a);
    } else if a.Poll? {
      PollRender(s, a.first, a.avails, a.hangup, a.env);
    } else {
      OtherLostSize(s, a);
    }
  }

  lemma OtherLostSize(s: System, a: Action)
    requires Inv(s) && SizeInv(s) && Enabled(s, a) && s.game.sizeLost && !Renotifies(s, a)
    requires !IsCallback(a) && !a.Poll?
    ensures Stuck(s, Stepped(s, a))
  {
    if a.GameTurn? {
      StepIsTurn(s, a);
      TurnLostSize(s, a);
    }
  }

  lemma TurnLostSize(s: System, a: Action)
    requires Inv(s) && SizeInv(s) && Enabled(s, a) && s.game.sizeLost && a.GameTurn?
    ensures Stuck(s, Turned(s, a.n, a.lost, a.gl, a.stable, a.ackSent))
  {
    DrawnView(s, a.n, a.lost, a.gl);
  }

  lemma CallbackRender(s: System, a: Action)
    requires Inv(s) && Enabled(s, a) && IsCallback(a)
    ensures SameRender(s.view, ViewAfter(s.view, a))
  {
    hide OnPaint, OnAcceleratedPaint, SetOverlayVisible;
    var v := s.view;
    match a
    case Paint(isView, source, w, h, dirty, env) => OnPaintSends(v, isView, source, w, h, dirty, env);
    case Accelerate(isView, info, dirty, env) => OnAcceleratedPaintSends(v, isView, info, dirty, env);
    case Visibility(show) => SetOverlayVisibleQuiet(v, show);
    case _ =>
  }

  lemma PollRender(s: System, first: nat, avails: seq<nat>, hangup: Hangup, env: Env)
    requires Inv(s) && (s.view.link.connected ==> !SomeSized(Acks(s.net.ctl)))
    ensures s.game.sizeLost ==> Stuck(s, Polled(s, first, avails, hangup, env))
  {
    if s.view.link.connected && !s.net.open {
      GrantSends(s.view, [], false, env);
    } else if s.view.link.connected {
      OpenPollRender(s, first, avails, hangup, env);
      hide Polled, Facts, Pictures, WellFormed;
    }
  }

  lemma OpenPollRender(s: System, first: nat, avails: seq<nat>, hangup: Hangup, env: Env)
    requires Inv(s) && s.view.link.connected && s.net.open && !SomeSized(Acks(s.net.ctl))
    ensures s.game.sizeLost ==> Stuck(s, Polled(s, first, avails, hangup, env))
  {
    hide Polled, TakeAck, Read, Facts, Pictures, WellFormed;
    var r := Read(s.view.pace.pending, s.net, first, avails, hangup);
    var t, p := OpenPoll(s, r, first, avails, hangup, env);
    ReadTakes(s.view.pace.pending, s.net, first, avails, hangup);
    AckRender(s, r, env.readOk);
  }

  lemma AckRender(s: System, r: Reading, readOk: bool)
    requires Inv(s) && r.k <= |s.net.ctl| && !SomeSized(Acks(s.net.ctl))
    requires r.ack.Some? ==> s.view.pace.pending
    requires Acks(s.net.ctl[..r.k]) == if r.ack.Some? then [r.ack.value] else []
    ensures SameRender(s.view, TakeAck(s.view, r.ack, readOk))
  {
    if r.ack.Some? {
      AcksSplit(s.net.ctl, r.k);
      assert Acks(s.net.ctl)[0] == r.ack.value;
      ProcessAckAcknowledges(s.view, r.ack.value, readOk);
    }
  }
}
