/** The requests of the game in every run: frames sent were asked for, and a
    SHUTDOWN gets through. */
module Requests {
  import opened Bytes
  import opened ControlWire
  import opened ControlSocket
  import opened ViewState
  import opened ViewSends
  import opened Pipeline
  import opened PollFacts
  import opened PipelineFacts
  import opened PipelineRuns
  import S = Screen

  /** NEXT_FRAMEs received, and those still unread, were sent by the game; and a
      SHUTDOWN it sent is unread or the view has quit, as long as the view's end
      of the connection is open. */
  predicate Demand(v: ViewState, net: Net) {
    v.link.connected ==>
      && v.hist.requests + NextFrames(net.ctl) <= net.asked
      && (net.open && net.shut ==> v.link.quit || MeetsShutdown(net.ctl))
  }

  /** A poll counts exactly the requests it read. */
  lemma PollDemand(s: System, first: nat, avails: seq<nat>, hangup: Hangup, env: Env)
    requires Inv(s) && Demand(s.view, s.net) && s.view.link.connected && s.net.open
    ensures var t := Polled(s, first, avails, hangup, env); Demand(t.view, t.net)
  {
    var r := Read(s.view.pace.pending, s.net, first, avails, hangup);
    ReadingDemand(s, r, first, avails, hangup, env);
  }

  lemma ReadingDemand(s: System, r: Reading, first: nat, avails: seq<nat>, hangup: Hangup, env: Env)
    requires Inv(s) && Demand(s.view, s.net) && s.view.link.connected && s.net.open
    requires r == Read(s.view.pace.pending, s.net, first, avails, hangup)
    ensures Demand(PollSocket(s.view, r.ack, r.reqs, r.up, env), AfterRead(s, r).net)
  {
    var p := PollSocket(s.view, r.ack, r.reqs, r.up, env);
    PollSocketCounts(s.view, r.ack, r.reqs, r.up, env);
    assert CountNextFrames(r.reqs) <= NextFrames(s.net.ctl[..r.k])
           && (Shutdown in r.reqs <==> MeetsShutdown(s.net.ctl[..r.k])) by {
      ReadTakes(s.view.pace.pending, s.net, first, avails, hangup);
    }
    ReadDemand(s.view, p, s.net, AfterRead(s, r).net, r.k);
  }

  lemma ReadDemand(v: ViewState, p: ViewState, net: Net, next: Net, k: nat)
    requires Demand(v, net) && v.link.connected && k <= |net.ctl|
    requires p.hist.requests <= v.hist.requests + NextFrames(net.ctl[..k])
    requires v.link.quit || MeetsShutdown(net.ctl[..k]) ==> p.link.quit
    requires next.asked == net.asked && next.shut == net.shut
    requires (next.ctl == net.ctl[k..] && next.open == net.open) || (next.ctl == [] && !next.open)
    ensures Demand(p, next)
  {
    NextFramesSplit(net.ctl, k);
    MeetsSplit(net.ctl, k);
  }

  lemma ClosedPollDemand(s: System, first: nat, avails: seq<nat>, hangup: Hangup, env: Env)
    requires Inv(s) && Demand(s.view, s.net) && s.view.link.connected && !s.net.open
    ensures var t := Polled(s, first, avails, hangup, env); Demand(t.view, t.net)
  {
    PollSocketCounts(s.view, None, [], false, env);
  }

  lemma RecordsAppend(ctl: seq<Record>, more: seq<Record>)
    ensures NextFrames(ctl + more) == NextFrames(ctl) + NextFrames(more)
    ensures MeetsShutdown(ctl + more) <==> MeetsShutdown(ctl) || MeetsShutdown(more)
  {
    NextFramesSplit(ctl + more, |ctl|);
    MeetsSplit(ctl + more, |ctl|);
    assert (ctl + more)[..|ctl|] == ctl && (ctl + more)[|ctl|..] == more;
  }

  /** What the game appends besides requests leaves the demand as it is. */
  lemma AnswersAppend(v: ViewState, net: Net, next: Net, more: seq<Record>)
    requires Demand(v, net) && forall j | 0 <= j < |more| :: more[j].AckRecord?
    requires next.ctl == net.ctl || next.ctl == net.ctl + more
    requires next.open == net.open && next.asked == net.asked && next.shut == net.shut
    ensures Demand(v, next)
  {
    OnlyAcks(more);
    RecordsAppend(net.ctl, more);
  }

  lemma AskDemand(v: ViewState, net: Net, q: Request)
    requires Demand(v, net)
    ensures Demand(v, Asked(net, q))
  {
    RecordsAppend(net.ctl, [RequestRecord(q)]);
    assert NextFrames([RequestRecord(q)]) == if q == NextFrame then 1 else 0;
    assert q == Shutdown ==> [RequestRecord(q)][0] == RequestRecord(Shutdown);
  }

  lemma TurnDemand(s: System, n: nat, lost: bool, gl: S.ShowEnv, stable: bool, ackSent: bool)
    requires Inv(s) && n <= |Inbox(s.net)| && Demand(s.view, s.net)
    ensures var t := Turned(s, n, lost, gl, stable, ackSent); Demand(t.view, t.net)
  {
    DrawnView(s, n, lost, gl);
    var ack := BuildAck(s.game, S.Turn(s.screen, Inbox(s.net)[..n], lost, gl).1, stable);
    AnswersAppend(s.view, s.net, Turned(s, n, lost, gl, stable, ackSent).net, [AckRecord(ack)]);
  }

  lemma HiddenDemand(s: System, n: nat, lost: bool, ackSent: bool)
    requires n <= |Inbox(s.net)| && Demand(s.view, s.net)
    ensures var t := Hidden(s, n, lost, ackSent); Demand(t.view, t.net)
  {
    AnswersAppend(s.view, s.net, Hidden(s, n, lost, ackSent).net, Discards(n));
  }

  lemma GameDemand(s: System, a: Action)
    requires Inv(s) && Enabled(s, a) && Demand(s.view, s.net) && !IsCallback(a) && !a.Poll? && !a.Task?
    ensures Demand(Stepped(s, a).view, Stepped(s, a).net)
  {
    hide Demand, Turned, Hidden;
    match a
    case GameTurn(n, lost, gl, stable, ackSent) => TurnDemand(s, n, lost, gl, stable, ackSent);
    case GameHidden(n, lost, ackSent) => HiddenDemand(s, n, lost, ackSent);
    case GameAsks(q) => AskDemand(s.view, s.net, q);
    case _ => QuietGameDemand(s, a);
  }

  lemma QuietGameDemand(s: System, a: Action)
    requires WellFormed(s) && Enabled(s, a) && Demand(s.view, s.net)
    requires a.LinkFails? || a.TextureFails? || a.GameResizes? || a.GameTurnsTo?
    ensures Demand(Stepped(s, a).view, Stepped(s, a).net)
  {
    hide Fits;
  }

  lemma TaskDemand(s: System, up: bool, inited: bool)
    requires Inv(s) && Demand(s.view, s.net)
    ensures var t := Tasked(s, up, inited); Demand(t.view, t.net)
  {
  }

  lemma SteppedDemand(s: System, a: Action)
    requires Inv(s) && Enabled(s, a) && Demand(s.view, s.net)
    ensures Demand(Stepped(s, a).view, Stepped(s, a).net)
  {
    if IsCallback(a) {
      CallbackCounts(s.view, a);
    } else if a.Poll? {
      if s.view.link.connected && s.net.open {
        PollDemand(s, a.first, a.avails, a.hangup, a.env);
      } else if s.view.link.connected {
        ClosedPollDemand(s, a.first, a.avails, a.hangup, a.env);
      }
    } else if a.Task? {
      TaskDemand(s, a.up, a.inited);
    } else {
      GameDemand(s, a);
    }
  }

  lemma {:induction false} RunDemand(states: seq<System>, actions: seq<Action>, k: nat)
    requires Run(states, actions) && k < |states|
    ensures Demand(states[k].view, states[k].net)
  {
    if k > 0 {
      RunDemand(states, actions, k - 1);
      RunKeeps(states, actions, k - 1);
      SteppedDemand(states[k - 1], actions[k - 1]);
    }
  }

  /** Frames sent never exceed the NEXT_FRAME records that the view took off this
      connection's stream, and those are at most what the game sent on it. */
  lemma FramesWereAskedFor(states: seq<System>, actions: seq<Action>, k: nat)
    requires Run(states, actions) && k < |states| && states[k].view.link.connected
    ensures var v, net := states[k].view, states[k].net;
            |v.hist.wire| <= v.hist.requests <= net.asked - NextFrames(net.ctl) <= net.asked
  {
    RunKeeps(states, actions, k);
    RunDemand(states, actions, k);
  }

  /** A SHUTDOWN the game sent and the view has taken off the stream has made the
      view quit, whatever it was mixed with. */
  lemma ShutdownSurvives(states: seq<System>, actions: seq<Action>, k: nat)
    requires Run(states, actions) && k < |states|
    requires var s := states[k]; s.view.link.connected && s.net.open && s.net.shut && !MeetsShutdown(s.net.ctl)
    ensures states[k].view.link.quit
  {
    RunDemand(states, actions, k);
  }
}
