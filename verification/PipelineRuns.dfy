/** Properties of every run of the pipeline. */
module PipelineRuns {
  import opened Bytes
  import opened DirtyRoi
  import opened ControlStream
  import opened ViewState
  import opened ViewFacts
  import opened ViewSends
  import opened Pipeline
  import opened PollFacts
  import opened PipelineFacts
  import S = Screen

  /** A run from an initial state: states, and the actions between them. */
  ghost predicate Run(states: seq<System>, actions: seq<Action>) {
    && |states| == |actions| + 1
    && (exists useDma, roiEnabled, w, h :: states[0] == Initial(useDma, roiEnabled, w, h))
    && forall k | 0 <= k < |actions| ::
         WellFormed(states[k]) && Enabled(states[k], actions[k]) && states[k + 1] == Stepped(states[k], actions[k])
  }

  lemma {:induction false} RunKeeps(states: seq<System>, actions: seq<Action>, k: nat)
    requires Run(states, actions) && k < |states|
    ensures Inv(states[k])
  {
    if k == 0 {
      var useDma, roiEnabled, w, h :| states[0] == Initial(useDma, roiEnabled, w, h);
      StartFacts(useDma, roiEnabled, w, h);
    } else {
      RunKeeps(states, actions, k - 1);
      SteppedKeeps(states[k - 1], actions[k - 1]);
    }
  }

  // ----- Mirror coherence -----

  /** The picture the game's texture has: its own pixels, or what is in the memory
      of the buffer object it samples. CEF's pooled buffers are not followed. */
  function OnScreen(s: System): Option<Image>
    requires s.screen.Valid()
  {
    var cur := s.screen.Current();
    match cur.tex
    case NoTexture => None
    case Own(px) => Some(Image(cur.w, cur.h, px))
    case Shared(src) =>
      var o := Object(s.view.gpu.bufs, s.gone, src);
      if o.Some? then Some(Image(o.value.w, o.value.h, o.value.image)) else None
  }

  /** The texture is imported memory, and after the game's last upload the view
      has staged into it (or CEF may have painted there). */
  predicate Restaged(s: System)
    requires s.screen.Valid()
  {
    var cur := s.screen.Current();
    && S.Foreign(cur)
    && (cur.tex.source.StagedBo? ==>
          var o := Object(s.view.gpu.bufs, s.gone, cur.tex.source); o.Some? && !Filled(o.value, cur))
  }

  /** While the baseline is valid and nothing is in flight, the canvas shown is
      the view's snapshot, pixel for pixel. */
  predicate Mirrors(s: System)
    requires s.screen.Valid()
  {
    s.view.link.connected && s.view.canvas.baselineValid && !s.view.pace.pending ==>
      s.screen.Current().tex == S.NoTexture || OnScreen(s) == s.view.canvas.shadow || Restaged(s)
  }

  lemma MirrorCoherence(states: seq<System>, actions: seq<Action>, k: nat)
    requires Run(states, actions) && k < |states|
    ensures states[k].screen.Valid() && Mirrors(states[k])
  {
    RunKeeps(states, actions, k);
  }

  // ----- No lost update -----

  predicate Displays(s: System, image: Image)
    requires s.screen.Valid()
  {
    s.screen.hasFrame && OnScreen(s) == Some(image)
  }

  /** What can take the picture off the screen behind the view's back: GL deleted
      the texture, the frame accepted last repeated another buffer's identifier,
      or the view staged into memory that the game uploaded to. */
  predicate Excused(s: System)
    requires s.screen.Valid()
  {
    s.screen.collided || s.screen.Current().tex == S.NoTexture || (s.view.canvas.lastSentShm && Restaged(s))
  }

  /** The newest paint of a live connection is kept as the deferred snapshot, or
      is the frame in flight, or is on screen; as long as its own callback could
      store or send it whole and no upload has since changed the one buffer that
      holds it. What became of earlier paints does not matter. */
  lemma NoLostUpdate(states: seq<System>, actions: seq<Action>, k: nat)
    requires Run(states, actions) && k < |states|
    requires var s := states[k]; s.view.link.connected && s.net.alive && s.view.hist.kept && s.view.hist.latest.Some?
    ensures var s, newest := states[k], states[k].view.hist.latest.value;
            && s.screen.Valid()
            && (|| Shows(s.view.gpu.bufs, s.view.deferred, newest)
                || (s.view.pace.pending && s.view.deferred == Nothing && s.view.hist.sentImg == newest)
                || Displays(s, newest)
                || Excused(s))
  {
    RunKeeps(states, actions, k);
    var s := states[k];
    if AtRest(s.view) {
      RestDisplays(s);
    }
  }

  lemma RestDisplays(s: System)
    requires Inv(s) && s.net.alive && AtRest(s.view)
    ensures Displays(s, s.view.hist.latest.value) || Excused(s)
  {
    assert Resting(s.view, s.gone, s.net, s.screen);
  }

  // ----- Staging buffers -----

  /** The buffer in flight still holds the frame sent from it, and so do, what
      they were recorded with, the one last acknowledged and, unless a failed blit
      marked it uninitialised, the one deferred; except for what the game wrote. */
  lemma BuffersKeepTheirPictures(states: seq<System>, actions: seq<Action>, k: nat)
    requires Run(states, actions) && k < |states|
    ensures var v := states[k].view;
            && (v.gpu.inflight.Some? ==>
                  Contains(v.gpu.bufs, v.gpu.inflight.value) && v.gpu.inflight.value.image == v.hist.sentImg)
            && (v.gpu.lastAcked.Some? ==> Contains(v.gpu.bufs, v.gpu.lastAcked.value))
            && (v.deferred.Buffer? && v.gpu.bufs.At(v.deferred.held.b).initialized ==>
                  Contains(v.gpu.bufs, v.deferred.held))
  {
    RunKeeps(states, actions, k);
  }

  /** The upload of this turn, if it goes into a buffer the view still has. */
  function Upload(s: System, a: Action): seq<S.Write>
    requires s.screen.Valid()
  {
    if a.GameTurn? && a.n <= |Inbox(s.net)| then
      var ws := S.TurnUploads(s.screen, Inbox(s.net)[..a.n], a.lost, a.gl);
      if ws != [] && Live(s.view.gpu.bufs, ws[0].source) then ws else []
    else []
  }

  /** Told before the turn: its first frame is uploaded into a texture over the
      memory of this buffer, and not with the pixels already there. */
  predicate Overwrites(s: System, a: Action, b: BufName)
    requires WellFormed(s) && Enabled(s, a)
  {
    var ws := Upload(s, a);
    ws != [] && ws[0].source.buffer == b
    && (assert Inbox(s.net)[..a.n][0] in Inbox(s.net);
        Overlaid(s.view.gpu.bufs.At(b), ws[0].frame, a.gl.smear).image != s.view.gpu.bufs.At(b).image)
  }

  /** A buffer that a pointer names is overwritten. */
  predicate Spoils(s: System, a: Action)
    requires WellFormed(s) && Enabled(s, a)
  {
    exists b :: Names(s.view, b) && Overwrites(s, a, b)
  }

  /** The buffer that alone holds the newest paint is overwritten. */
  predicate Erases(s: System, a: Action)
    requires WellFormed(s) && Enabled(s, a)
  {
    exists b :: Relies(s.view, b) && Overwrites(s, a, b)
  }

  /** What the turn makes of the view, as one upload or nothing. */
  lemma TurnUpload(s: System, a: Action) returns (ws: seq<S.Write>)
    requires Inv(s) && Enabled(s, a) && a.GameTurn?
    ensures ws == Upload(s, a)
    ensures ws == [] ==> Stepped(s, a).view == s.view && forall b :: !Overwrites(s, a, b)
    ensures ws != [] ==>
              && Live(s.view.gpu.bufs, ws[0].source) && S.FrameValid(ws[0].frame)
              && (ws[0].frame.ShmFull? || ws[0].frame.ShmRect?)
              && var b := ws[0].source.buffer;
                 var o := Overlaid(s.view.gpu.bufs.At(b), ws[0].frame, a.gl.smear);
                 && Stepped(s, a).view == Scribbled(s.view, b, o.image, o.author)
                 && forall c :: Overwrites(s, a, c) <==> c == b && o.image != s.view.gpu.bufs.At(b).image
  {
    StepIsTurn(s, a);
    ws := Upload(s, a);
    assert a.n > 0 ==> Inbox(s.net)[..a.n][0] in Inbox(s.net);
    WrittenWhere(s, S.TurnUploads(s.screen, Inbox(s.net)[..a.n], a.lost, a.gl), a.gl.smear);
    hide Stepped, WellFormed, Written;
  }

  lemma WrittenWhere(s: System, ws: seq<S.Write>, smear: seq<byte>)
    requires Fits(s.view)
    requires forall k | 0 <= k < |ws| :: S.FrameValid(ws[k].frame) && (ws[k].frame.ShmFull? || ws[k].frame.ShmRect?)
    ensures Written(s, ws, smear).view ==
              if ws != [] && Live(s.view.gpu.bufs, ws[0].source) then
                var b := ws[0].source.buffer;
                var o := Overlaid(s.view.gpu.bufs.At(b), ws[0].frame, smear);
                Scribbled(s.view, b, o.image, o.author)
              else s.view
  {
  }

  lemma TurnSpoilsIff(s: System, a: Action)
    requires Inv(s) && Enabled(s, a) && a.GameTurn?
    ensures Intact(s.view) ==> (Intact(Stepped(s, a).view) <==> !Spoils(s, a))
    ensures Stepped(s, a).view.hist.spared <==> s.view.hist.spared && !Spoils(s, a)
  {
    var ws := TurnUpload(s, a);
    if ws != [] {
      var b := ws[0].source.buffer;
      var o := Overlaid(s.view.gpu.bufs.At(b), ws[0].frame, a.gl.smear);
      assert Spoils(s, a) <==> Names(s.view, b) && Overwrites(s, a, b);
      if Intact(s.view) {
        ScribbleBreaksIff(s.view, b, o.image, o.author);
      }
    }
  }

  lemma TurnErasesIff(s: System, a: Action)
    requires Inv(s) && Enabled(s, a) && a.GameTurn? && s.view.hist.kept && s.view.hist.latest.Some?
    ensures Kept(Stepped(s, a).view, s.view.hist.latest.value) <==> !Erases(s, a)
  {
    var ws := TurnUpload(s, a);
    if ws != [] {
      var b := ws[0].source.buffer;
      var o := Overlaid(s.view.gpu.bufs.At(b), ws[0].frame, a.gl.smear);
      assert Erases(s, a) <==> Relies(s.view, b) && Overwrites(s, a, b);
      ScribbleKeepsNewestIff(s.view, b, o.image, o.author);
    }
  }

  /** Over a whole run the pictures are intact in every state if and only if no
      turn overwrites a buffer that a pointer names. */
  lemma IntactIff(states: seq<System>, actions: seq<Action>)
    requires Run(states, actions)
    ensures (forall k | 0 <= k < |states| :: Intact(states[k].view))
            <==> (forall k | 0 <= k < |actions| :: !Spoils(states[k], actions[k]))
  {
    if forall k | 0 <= k < |actions| :: !Spoils(states[k], actions[k]) {
      forall k: nat | k < |states| ensures Intact(states[k].view) {
        SparedRun(states, actions, k);
      }
    } else {
      var k :| 0 <= k < |actions| && Spoils(states[k], actions[k]);
      RunKeeps(states, actions, k);
      TurnSpoilsIff(states[k], actions[k]);
      assert !Intact(states[k].view) || !Intact(states[k + 1].view);
    }
  }

  lemma {:induction false} SparedRun(states: seq<System>, actions: seq<Action>, k: nat)
    requires Run(states, actions) && k < |states|
    requires forall j | 0 <= j < k :: !Spoils(states[j], actions[j])
    ensures states[k].view.hist.spared && Intact(states[k].view)
  {
    RunKeeps(states, actions, k);
    if k > 0 {
      SparedRun(states, actions, k - 1);
      RunKeeps(states, actions, k - 1);
      SparedStep(states[k - 1], actions[k - 1]);
    }
    SparedIsIntact(states[k].view);
  }

  lemma CallbackCounts(v: ViewState, a: Action)
    requires Fits(v) && IsCallback(a)
    requires a.Paint? ==> a.w < INT_LIMIT && a.h < INT_LIMIT
                          && (a.source.Some? && a.w > 0 && a.h > 0 ==> |a.source.value| == a.w * a.h * 4)
    requires a.Accelerate? ==> a.info.Valid()
    ensures SameCounts(v, ViewAfter(v, a))
  {
    match a
    case Paint(isView, source, w, h, dirty, env) => OnPaintCounts(v, isView, source, w, h, dirty, env);
    case Accelerate(isView, info, dirty, env) => OnAcceleratedPaintCounts(v, isView, info, dirty, env);
    case Visibility(show) => SetOverlayVisibleCounts(v, show);
    case _ =>
  }

  lemma PollSpares(s: System, first: nat, avails: seq<nat>, hangup: Hangup, env: Env)
    requires WellFormed(s)
    ensures Polled(s, first, avails, hangup, env).view.hist.spared == s.view.hist.spared
  {
    if s.view.link.connected && !s.net.open {
      PollSocketCounts(s.view, None, [], false, env);
    } else if s.view.link.connected {
      var r := Read(s.view.pace.pending, s.net, first, avails, hangup);
      PollSocketCounts(s.view, r.ack, r.reqs, r.up, env);
    }
  }

  lemma SparedStep(s: System, a: Action)
    requires Inv(s) && Enabled(s, a) && s.view.hist.spared && !Spoils(s, a)
    ensures Stepped(s, a).view.hist.spared
  {
    hide Turned, Polled, WellFormed;
    if a.GameTurn? {
      TurnSpoilsIff(s, a);
    } else if IsCallback(a) {
      CallbackCounts(s.view, a);
    } else if a.Poll? {
      PollSpares(s, a.first, a.avails, a.hangup, a.env);
    }
  }

  /** And the newest paint survives a turn exactly if the turn does not erase it. */
  lemma NewestSurvivesIff(states: seq<System>, actions: seq<Action>, k: nat)
    requires Run(states, actions) && k < |actions| && actions[k].GameTurn?
    requires states[k].view.hist.kept && states[k].view.hist.latest.Some?
    ensures Kept(states[k + 1].view, states[k].view.hist.latest.value) <==> !Erases(states[k], actions[k])
  {
    RunKeeps(states, actions, k);
    TurnErasesIff(states[k], actions[k]);
  }

  // ----- Accounting -----

  /** Frames sent are ACKs processed plus the one in flight, never more than the
      NEXT_FRAMEs received; and at most that one is under way or answered. */
  lemma Accounting(states: seq<System>, actions: seq<Action>, k: nat)
    requires Run(states, actions) && k < |states| && states[k].view.link.connected
    ensures var v, net := states[k].view, states[k].net;
            && |v.hist.wire| == v.hist.acks + (if v.pace.pending then 1 else 0)
            && |v.hist.wire| <= v.hist.requests
            && |net.frames| + |Acks(net.ctl)| <= (if v.pace.pending then 1 else 0)
  {
    RunKeeps(states, actions, k);
  }

  /** Whatever a poll takes off the stream, the only acknowledgement in it is the
      one handed to the view. */
  lemma NoAckDiscarded(states: seq<System>, actions: seq<Action>, k: nat)
    requires Run(states, actions) && k < |actions| && actions[k].Poll? && states[k].view.link.connected
    ensures states[k].net.queued == 0
    ensures var net, a := states[k].net, actions[k];
            var r := Read(states[k].view.pace.pending, net, a.first, a.avails, a.hangup);
            Acks(net.ctl[..r.k]) == if r.ack.Some? then [r.ack.value] else []
  {
    RunKeeps(states, actions, k);
    ReadTakes(states[k].view.pace.pending, states[k].net, actions[k].first, actions[k].avails, actions[k].hangup);
  }
}
