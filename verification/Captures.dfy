/** The captures of a run, and what a dirty-only blit lands on. */
module Captures {
  import opened Bytes
  import opened DirtyRoi
  import opened GpuBuf
  import opened ControlWire
  import opened ViewState
  import opened ViewFacts
  import opened Pipeline
  import opened PipelineFacts
  import opened PipelineRuns
  import S = Screen

  /** A capture sent from its own callback, and what the main staging buffer held
      then. */
  datatype Capture = Capture(info: Accelerated, sent: Image)

  /** The callback sends the capture it was given. */
  ghost predicate SendsCapture(v: ViewState, a: Action)
    requires Fits(v) && (a.Accelerate? ==> a.info.Valid())
  {
    a.Accelerate? && !Busy(v) && ViewAfter(v, a).pace.pending
  }

  /** As CEF's own buffer, because staging it failed. */
  ghost predicate Forwards(v: ViewState, a: Action)
    requires Fits(v) && (a.Accelerate? ==> a.info.Valid())
  {
    SendsCapture(v, a) && v.OnDma() && ViewAfter(v, a).gpu.inflight.None?
  }

  ghost function AfterCallback(last: Option<Capture>, v: ViewState, a: Action): Option<Capture>
    requires Fits(v) && (a.Accelerate? ==> a.info.Valid())
  {
    if SendsCapture(v, a) then Some(Capture(a.info, Image(a.info.w, a.info.h, ViewAfter(v, a).gpu.bufs.main.image)))
    else last
  }

  // ----- What the handlers do to the number of the last capture -----

  /** The next capture in number may be blitted by its dirty rectangles, or may
      once the frame in flight is accepted. */
  predicate Armed(v: ViewState) {
    v.OnDma() && v.pace.counter.Some? && (v.pace.pending || !v.pace.needsFull)
  }

  /** A hidden view, or one that keeps a picture back, has no number. */
  predicate Unnumbered(v: ViewState) {
    v.deferred != Nothing || !v.link.visible ==> v.pace.counter.None?
  }

  /** Nothing new is armed. */
  predicate Disarms(v: ViewState, r: ViewState) {
    Unnumbered(v) ==>
      && Unnumbered(r)
      && (Armed(r) ==> Armed(v) && r.pace.counter == v.pace.counter && r.hist.based == v.hist.based
                       && r.hist.captureImg == v.hist.captureImg)
  }

  lemma SendDeferredDisarms(v: ViewState, env: Env)
    requires Fits(v)
    ensures Disarms(v, MaybeSendDeferred(v, env))
  {
    SendKeepsNumber(v, env);
    hide MaybeSendDeferred;
  }

  lemma SendKeepsNumber(v: ViewState, env: Env)
    requires Fits(v)
    ensures var r := MaybeSendDeferred(v, env);
            r.pace.counter == v.pace.counter && r.link == v.link && (v.deferred == Nothing ==> r == v)
  {
  }

  lemma OnPaintDisarms(v: ViewState, isView: bool, source: Option<seq<byte>>, w: int, h: int, dirty: seq<DirtyRect>,
                       env: Env)
    requires Fits(v) && w < INT_LIMIT && h < INT_LIMIT
    requires source.Some? && w > 0 && h > 0 ==> |source.value| == w * h * 4
    ensures Disarms(v, OnPaint(v, isView, source, w, h, dirty, env))
  {
  }

  lemma DeferCaptureDisarms(v: ViewState, info: Accelerated, env: Env)
    requires Fits(v) && info.Valid()
    ensures Disarms(v, DeferCapture(v, info, env))
  {
    var u := MarkDropped(CacheDeferredGpu(v, info, env));
    assert u.pace.counter.None?;
    SendDeferredDisarms(u, env);
  }

  /** A direct capture that is not sent. */
  lemma UnsentDisarms(v: ViewState, info: Accelerated, dirty: seq<DirtyRect>, whole: bool, env: Env)
    requires Fits(v) && v.link.connected && !v.pace.pending && v.deferred == Nothing && info.Valid()
    requires !DirectCapture(v, info, dirty, whole, env).pace.pending
    ensures Disarms(v, DirectCapture(v, info, dirty, whole, env))
  {
    var u := Transmit(v, info, dirty, !CanBlitDirty(v, info), env);
    TransmitLeaves(v, info, dirty, !CanBlitDirty(v, info), env);
    hide Transmit;
    assert !u.pace.pending;
  }

  lemma TransmitLeaves(v: ViewState, info: Accelerated, dirty: seq<DirtyRect>, full: bool, env: Env)
    requires Fits(v) && v.link.connected && !v.pace.pending && v.deferred == Nothing && info.Valid()
    ensures var u := Transmit(v, info, dirty, full, env);
            u.deferred == v.deferred && u.link == v.link && u.mode == v.mode && u.pace.counter == v.pace.counter
  {
  }

  /** One that is sent has its own number; sent staged, it is what the buffer
      holds. */
  lemma SentArms(v: ViewState, info: Accelerated, dirty: seq<DirtyRect>, whole: bool, env: Env)
    requires Fits(v) && v.link.connected && v.link.visible && !v.pace.pending && v.deferred == Nothing && info.Valid()
    requires DirectCapture(v, info, dirty, whole, env).pace.pending && v.gpu.inflight.None?
    ensures var r := DirectCapture(v, info, dirty, whole, env);
            && info.Sized() && r.OnDma() == v.OnDma() && r.pace.counter == info.counter && Unnumbered(r)
            && (v.OnDma() && r.gpu.inflight.Some? ==>
                  r.hist.based && r.hist.captureImg == Image(info.w, info.h, r.gpu.bufs.main.image))
  {
  }

  lemma SetOverlayVisibleDisarms(v: ViewState, visible: bool)
    requires Fits(v)
    ensures Disarms(v, SetOverlayVisible(v, visible))
  {
  }

  lemma TakeAckDisarms(v: ViewState, ack: Option<AckMsg>, readOk: bool)
    requires Fits(v)
    ensures Disarms(v, TakeAck(v, ack, readOk))
  {
    if v.pace.pending && ack.Some? {
      if ack.value.code == Accepted {
        AcceptDisarms(v);
        FinishDisarms(v, Accept(v), ack.value);
      } else {
        RefuseDisarms(v, ack.value.code, readOk);
        FinishDisarms(v, Refuse(v, ack.value.code, readOk), ack.value);
      }
      hide Accept, Refuse, FinishAck, Disarms;
    }
  }

  lemma AcceptDisarms(v: ViewState)
    requires Fits(v) && v.pace.pending
    ensures Disarms(v, Accept(v)) && Accept(v).pace.pending
  {
  }

  lemma RefuseDisarms(v: ViewState, code: AckCode, readOk: bool)
    requires Fits(v) && v.pace.pending
    ensures Disarms(v, Refuse(v, code, readOk)) && Refuse(v, code, readOk).pace.pending
  {
  }

  lemma FinishDisarms(v: ViewState, u: ViewState, ack: AckMsg)
    requires Fits(u) && Disarms(v, u) && u.pace.pending
    ensures Disarms(v, FinishAck(u, ack))
  {
  }

  lemma PollSocketDisarms(v: ViewState, ack: Option<AckMsg>, reqs: seq<Request>, up: bool, env: Env)
    requires Fits(v)
    ensures Disarms(v, PollSocket(v, ack, reqs, up, env))
  {
    TakeAckDisarms(v, ack, env.readOk);
    SendDeferredDisarms(TakeRequests(TakeAck(v, ack, env.readOk), reqs, up), env);
  }

  lemma ConnectTaskDisarms(v: ViewState, up: bool, inited: bool)
    requires Fits(v)
    ensures Disarms(v, ConnectTask(v, up, inited))
  {
  }

  // ----- One step -----

  /** An armed view has staged the last capture, and remembers what was sent. */
  predicate Linked(v: ViewState, last: Option<Capture>) {
    && Unnumbered(v)
    && (Armed(v) ==>
          && v.hist.based && last.Some? && last.value.info.counter == v.pace.counter
          && v.hist.captureImg == last.value.sent)
  }

  lemma DisarmsLinked(v: ViewState, r: ViewState, last: Option<Capture>)
    requires Linked(v, last) && Disarms(v, r)
    ensures Linked(r, last)
  {
  }

  /** A capture that is sent, not as CEF's own buffer. */
  lemma CaptureLinked(v: ViewState, a: Action, last: Option<Capture>)
    requires Facts(v) && a.Accelerate? && a.info.Valid() && SendsCapture(v, a) && !Forwards(v, a)
    ensures a.info.Sized() && Linked(ViewAfter(v, a), AfterCallback(last, v, a))
  {
    var l := Captured(v, a.info);
    var whole := CaptureWhole(v, a.info, a.dirty, a.env);
    assert ViewAfter(v, a) == DirectCapture(l, a.info, a.dirty, whole, a.env);
    SentArms(l, a.info, a.dirty, whole, a.env);
    hide DirectCapture, Facts;
  }

  lemma AccelerateDisarms(v: ViewState, a: Action)
    requires Facts(v) && a.Accelerate? && a.info.Valid() && !SendsCapture(v, a)
    ensures Disarms(v, ViewAfter(v, a))
  {
    if a.isView && v.link.connected && v.link.visible {
      var l := Captured(v, a.info);
      if Busy(v) {
        DeferCaptureDisarms(l, a.info, a.env);
      } else if v.pace.needsFull || !a.info.hasUpdateRect || (a.info.updateW > 0 && a.info.updateH > 0) {
        UnsentDisarms(l, a.info, a.dirty, CaptureWhole(v, a.info, a.dirty, a.env), a.env);
      }
    }
  }

  lemma CallbackDisarms(v: ViewState, a: Action)
    requires Facts(v) && IsCallback(a)
    requires a.Paint? ==> a.w < INT_LIMIT && a.h < INT_LIMIT
                          && (a.source.Some? && a.w > 0 && a.h > 0 ==> |a.source.value| == a.w * a.h * 4)
    requires a.Accelerate? ==> a.info.Valid()
    requires !SendsCapture(v, a)
    ensures Disarms(v, ViewAfter(v, a))
  {
    match a
    case Paint(isView, source, w, h, dirty, env) => OnPaintDisarms(v, isView, source, w, h, dirty, env);
    case Accelerate(_, _, _, _) => AccelerateDisarms(v, a);
    case Visibility(show) => SetOverlayVisibleDisarms(v, show);
    case PageLoaded(_, _) =>
  }

  ghost function AfterStep(last: Option<Capture>, s: System, a: Action): Option<Capture>
    requires WellFormed(s) && Enabled(s, a)
  {
    AfterCallback(last, s.view, a)
  }

  lemma PollDisarms(s: System, first: nat, avails: seq<nat>, hangup: Hangup, env: Env)
    requires WellFormed(s)
    ensures Disarms(s.view, Polled(s, first, avails, hangup, env).view)
  {
    if s.view.link.connected && !s.net.open {
      PollSocketDisarms(s.view, None, [], false, env);
    } else if s.view.link.connected {
      var r := Read(s.view.pace.pending, s.net, first, avails, hangup);
      PollSocketDisarms(s.view, r.ack, r.reqs, r.up, env);
    }
  }

  lemma TurnDisarms(s: System, n: nat, lost: bool, gl: S.ShowEnv, stable: bool, ackSent: bool)
    requires Inv(s) && n <= |Inbox(s.net)|
    ensures Disarms(s.view, Turned(s, n, lost, gl, stable, ackSent).view)
  {
    DrawnView(s, n, lost, gl);
  }

  /** Only a capture that is sent arms the view. */
  lemma StepDisarms(s: System, a: Action)
    requires Inv(s) && Enabled(s, a) && !SendsCapture(s.view, a)
    ensures Disarms(s.view, Stepped(s, a).view)
  {
    hide Turned, Polled, Disarms, SendsCapture;
    if IsCallback(a) {
      CallbackDisarms(s.view, a);
    } else if a.Poll? {
      StepIsPoll(s, a);
      PollDisarms(s, a.first, a.avails, a.hangup, a.env);
    } else if a.Task? {
      ConnectTaskDisarms(s.view, a.up, a.inited);
    } else if a.GameTurn? {
      StepIsTurn(s, a);
      TurnDisarms(s, a.n, a.lost, a.gl, a.stable, a.ackSent);
    } else {
      SameDisarms(s.view);
    }
  }

  lemma SameDisarms(v: ViewState)
    ensures Disarms(v, v)
  {
  }

  lemma StepLinked(s: System, a: Action, last: Option<Capture>)
    requires Inv(s) && Enabled(s, a) && Linked(s.view, last) && !Forwards(s.view, a)
    ensures Linked(Stepped(s, a).view, AfterStep(last, s, a))
  {
    if SendsCapture(s.view, a) {
      CaptureLinked(s.view, a, last);
      hide Linked, Forwards, SendsCapture, ViewAfter, Inv;
    } else {
      StepDisarms(s, a);
      DisarmsLinked(s.view, Stepped(s, a).view, last);
      hide Linked, Forwards, SendsCapture, Stepped, Inv;
    }
  }

  // ----- Over runs -----

  ghost function LastCapture(states: seq<System>, actions: seq<Action>, k: nat): Option<Capture>
    requires Run(states, actions) && k < |states|
  {
    if k == 0 then None else AfterStep(LastCapture(states, actions, k - 1), states[k - 1], actions[k - 1])
  }

  ghost predicate ForwardsAt(states: seq<System>, actions: seq<Action>, j: nat)
    requires Run(states, actions) && j < |actions|
  {
    Forwards(states[j].view, actions[j])
  }

  lemma {:induction false} RunLinked(states: seq<System>, actions: seq<Action>, k: nat)
    requires Run(states, actions) && k < |states| && forall j | 0 <= j < k :: !ForwardsAt(states, actions, j)
    ensures Linked(states[k].view, LastCapture(states, actions, k))
  {
    hide Stepped, WellFormed, Enabled;
    if k > 0 {
      RunLinked(states, actions, k - 1);
      RunKeeps(states, actions, k - 1);
      assert !ForwardsAt(states, actions, k - 1);
      StepLinked(states[k - 1], actions[k - 1], LastCapture(states, actions, k - 1));
    }
  }

  /** In a run in which no capture was forwarded after failed staging, a dirty-only
      blit is asked for only for the capture numbered next after the last one sent,
      and lands on exactly what was sent for that, unless the game uploaded there. */
  lemma DirtyBlitHasBase(states: seq<System>, actions: seq<Action>, k: nat, info: Accelerated)
    requires Run(states, actions) && k < |states| && forall j | 0 <= j < k :: !ForwardsAt(states, actions, j)
    requires var v := states[k].view; v.OnDma() && info.Valid() && CanBlitDirty(v, info)
    ensures var main, last := states[k].view.gpu.bufs.main, LastCapture(states, actions, k);
            && last.Some? && last.value.info.counter.Some?
            && info.counter == Some(U64(last.value.info.counter.value + 1))
            && main.initialized && main.w == last.value.sent.w && main.h == last.value.sent.h
            && (main.author == ByView ==> main.image == last.value.sent.px)
  {
    hide Run, Inv, LastCapture;
    RunLinked(states, actions, k);
    RunKeeps(states, actions, k);
    InvFacts(states[k]);
    LinkedBase(states[k].view, LastCapture(states, actions, k), info);
  }

  lemma InvFacts(s: System)
    requires Inv(s)
    ensures Facts(s.view)
  {
  }

  lemma LinkedBase(v: ViewState, last: Option<Capture>, info: Accelerated)
    requires Facts(v) && Linked(v, last) && v.OnDma() && info.Valid() && CanBlitDirty(v, info)
    ensures last.Some? && last.value.info.counter.Some?
    ensures info.counter == Some(U64(last.value.info.counter.value + 1))
    ensures var main := v.gpu.bufs.main;
            && main.initialized && main.w == last.value.sent.w && main.h == last.value.sent.h
            && (main.author == ByView ==> main.image == last.value.sent.px)
  {
  }

  // ----- Down to the picture -----

  /** The capture is staged whole, or by a list that covers what changed since the
      last one, into a buffer the game has not uploaded to. */
  ghost predicate Covers(last: Option<Capture>, v: ViewState, a: Action)
    requires Fits(v) && (a.Accelerate? ==> a.info.Valid())
  {
    SendsCapture(v, a) && v.OnDma() && CanBlitDirty(v, a.info) ==>
      && v.gpu.bufs.main.author == ByView
      && a.info.Sized() && last.Some? && last.value.info.Valid() && last.value.info.Sized()
      && Honest(Some(last.value.info.Picture()), a.info.Picture(), a.dirty)
  }

  /** What was sent for the last capture is its picture. */
  predicate Pictured(v: ViewState, last: Option<Capture>) {
    Linked(v, last) && (last.Some? ==> last.value.info.Valid() && last.value.info.Sized())
    && (Armed(v) ==> last.value.sent == last.value.info.Picture())
  }

  lemma CapturePictured(v: ViewState, a: Action, last: Option<Capture>)
    requires Facts(v) && a.Accelerate? && a.info.Valid() && Pictured(v, last) && SendsCapture(v, a)
    requires !Forwards(v, a) && Covers(last, v, a)
    ensures Pictured(ViewAfter(v, a), AfterCallback(last, v, a))
  {
    CaptureLinked(v, a, last);
    SentArms(Captured(v, a.info), a.info, a.dirty, CaptureWhole(v, a.info, a.dirty, a.env), a.env);
    if v.OnDma() {
      SentWholePicture(v, a, last);
    }
  }

  lemma SentWholePicture(v: ViewState, a: Action, last: Option<Capture>)
    requires Facts(v) && a.Accelerate? && a.info.Valid() && Pictured(v, last) && SendsCapture(v, a)
    requires !Forwards(v, a) && Covers(last, v, a) && v.OnDma()
    ensures a.info.Sized() && ViewAfter(v, a).gpu.bufs.main.image == a.info.Picture().px
  {
    var l := Captured(v, a.info);
    var r := StageInto(l, a.info, a.dirty, !CanBlitDirty(l, a.info), a.env.blit);
    assert r.1;
    assert CaptureWhole(v, a.info, a.dirty, a.env);
    StagedForWhole(v, l, a.info, a.dirty, a.env);
  }

  lemma DisarmsPictured(v: ViewState, r: ViewState, last: Option<Capture>)
    requires Pictured(v, last) && Disarms(v, r)
    ensures Pictured(r, last)
  {
  }

  lemma StepPictured(s: System, a: Action, last: Option<Capture>)
    requires Inv(s) && Enabled(s, a) && Pictured(s.view, last) && !Forwards(s.view, a) && Covers(last, s.view, a)
    ensures Pictured(Stepped(s, a).view, AfterStep(last, s, a))
  {
    if SendsCapture(s.view, a) {
      CapturePictured(s.view, a, last);
      hide Pictured, Forwards, Covers, SendsCapture, ViewAfter, Inv;
    } else {
      StepDisarms(s, a);
      DisarmsPictured(s.view, Stepped(s, a).view, last);
      hide Pictured, Forwards, Covers, SendsCapture, Stepped, Inv;
    }
  }

  ghost predicate CoversAt(states: seq<System>, actions: seq<Action>, j: nat)
    requires Run(states, actions) && j < |actions|
  {
    Covers(LastCapture(states, actions, j), states[j].view, actions[j])
  }

  lemma {:induction false} RunPictured(states: seq<System>, actions: seq<Action>, k: nat)
    requires Run(states, actions) && k < |states|
    requires forall j | 0 <= j < k :: !ForwardsAt(states, actions, j) && CoversAt(states, actions, j)
    ensures Pictured(states[k].view, LastCapture(states, actions, k))
  {
    hide Stepped, WellFormed, Enabled;
    if k > 0 {
      RunPictured(states, actions, k - 1);
      RunKeeps(states, actions, k - 1);
      assert !ForwardsAt(states, actions, k - 1) && CoversAt(states, actions, k - 1);
      StepPictured(states[k - 1], actions[k - 1], LastCapture(states, actions, k - 1));
    }
  }

  /** If moreover every dirty-only blit so far covered what had changed, it lands on
      the picture of the preceding capture, unless the game uploaded there. */
  lemma DirtyBlitHasPicture(states: seq<System>, actions: seq<Action>, k: nat, info: Accelerated)
    requires Run(states, actions) && k < |states|
    requires forall j | 0 <= j < k :: !ForwardsAt(states, actions, j) && CoversAt(states, actions, j)
    requires var v := states[k].view; v.OnDma() && info.Valid() && CanBlitDirty(v, info)
    ensures var main, last := states[k].view.gpu.bufs.main, LastCapture(states, actions, k);
            && last.Some? && last.value.info.Valid() && last.value.info.Sized() && last.value.info.counter.Some?
            && info.counter == Some(U64(last.value.info.counter.value + 1))
            && main.initialized && main.w == last.value.info.w && main.h == last.value.info.h
            && (main.author == ByView ==> main.image == last.value.info.Picture().px)
  {
    DirtyBlitHasBase(states, actions, k, info);
    RunPictured(states, actions, k);
    hide Run, LastCapture, CoversAt, ForwardsAt;
  }
}
