/** What a poll takes off the control stream, seen on records and on bytes. */
module PollFacts {
  import opened Bytes
  import opened ControlWire
  import opened ControlStream
  import opened ControlSocket
  import opened ViewState
  import opened Pipeline

  function NextFrames(rs: seq<Record>): nat {
    if rs == [] then 0 else (if rs[0] == RequestRecord(NextFrame) then 1 else 0) + NextFrames(rs[1..])
  }

  lemma {:induction false} NextFramesSplit(rs: seq<Record>, k: nat)
    requires k <= |rs|
    ensures NextFrames(rs) == NextFrames(rs[..k]) + NextFrames(rs[k..])
  {
    if k > 0 {
      NextFramesSplit(rs[1..], k - 1);
      assert rs[1..][..k - 1] == rs[..k][1..] && rs[1..][k - 1..] == rs[k..];
    } else {
      assert rs[..0] == [] && rs[0..] == rs;
    }
  }

  lemma {:induction false} OnlyAcks(rs: seq<Record>)
    requires forall j | 0 <= j < |rs| :: rs[j].AckRecord?
    ensures NextFrames(rs) == 0 && !MeetsShutdown(rs)
  {
    if rs != [] {
      OnlyAcks(rs[1..]);
    }
  }

  /** The queue holds at most one of the NEXT_FRAMEs it met. */
  lemma {:induction false} QueueHoldsOne(queued: nat, rs: seq<Record>)
    requires queued <= 2
    ensures Queue(queued, rs) == 1 ==> queued == 1 || NextFrames(rs) > 0
    decreases |rs|
  {
    if rs != [] {
      QueueHoldsOne(if rs[0].RequestRecord? then Coalesce(queued, rs[0].request) else queued, rs[1..]);
    }
  }

  lemma MeetsSplit(rs: seq<Record>, k: nat)
    requires k <= |rs|
    ensures MeetsShutdown(rs) <==> MeetsShutdown(rs[..k]) || MeetsShutdown(rs[k..])
  {
    if MeetsShutdown(rs) {
      var j :| 0 <= j < |rs| && rs[j] == RequestRecord(Shutdown);
      assert if j < k then rs[..k][j] == rs[j] else rs[k..][j - k] == rs[j];
    }
    if MeetsShutdown(rs[..k]) {
      var j :| 0 <= j < k && rs[..k][j] == RequestRecord(Shutdown);
      assert rs[j] == RequestRecord(Shutdown);
    }
    if MeetsShutdown(rs[k..]) {
      var j :| 0 <= j < |rs[k..]| && rs[k..][j] == RequestRecord(Shutdown);
      assert rs[k + j] == RequestRecord(Shutdown);
    }
  }

  // ----- One receive -----

  /** Acknowledgements, then at most one request; no acknowledgement if they are
      preserved. */
  lemma {:induction false} RequestTakesShape(rs: seq<Record>, avail: nat, preserveAck: bool, fuel: nat)
    ensures var k := RequestTakes(rs, avail, preserveAck, fuel);
            && (forall j | 0 <= j < k - 1 :: rs[j].AckRecord?)
            && (preserveAck ==> k == 0 || (k == 1 && rs[0].RequestRecord?))
    decreases |rs|
  {
    if fuel != 0 && rs != [] && avail >= Size(rs[0]) && rs[0].AckRecord? && !preserveAck {
      RequestTakesShape(rs[1..], avail - ACK_SIZE, preserveAck, fuel - 1);
      var k := RequestTakes(rs[1..], avail - ACK_SIZE, preserveAck, fuel - 1);
      forall j | 0 <= j < k ensures rs[j].AckRecord? {
        assert j > 0 ==> rs[j] == rs[1..][j - 1];
      }
    }
  }

  /** What such a receive that returns a request took. */
  lemma TookRequest(ctl: seq<Record>, k: nat, preserveAck: bool)
    requires 0 < k <= |ctl| && ctl[k - 1].RequestRecord?
    requires forall j | 0 <= j < k - 1 :: ctl[j].AckRecord?
    requires preserveAck ==> k == 1
    ensures NextFrames(ctl[..k]) == if ctl[k - 1].request == NextFrame then 1 else 0
    ensures MeetsShutdown(ctl[..k]) <==> ctl[k - 1].request == Shutdown
    ensures preserveAck ==> Acks(ctl[..k]) == []
  {
    var acks, q := ctl[..k - 1], ctl[k - 1];
    assert ctl[..k] == acks + [q] && ctl[..k][..k - 1] == acks && ctl[..k][k - 1..] == [q];
    NextFramesSplit(ctl[..k], k - 1);
    AcksSplit(ctl[..k], k - 1);
    OnlyAcks(acks);
    assert NextFrames([q]) == if q.request == NextFrame then 1 else 0;
    MeetsSplit(ctl[..k], k - 1);
    assert q.request == Shutdown ==> [q][0] == RequestRecord(Shutdown);
  }

  // ----- The receives of one poll -----

  /** The prefix taken accounts for the requests returned, NEXT_FRAMEs at most and
      SHUTDOWN exactly; the queue ends empty; preserved ACKs stay. */
  predicate Took(ctl: seq<Record>, queued: nat, preserveAck: bool, r: Received) {
    && r.k <= |ctl| && r.queued == 0
    && (preserveAck ==> Acks(ctl[..r.k]) == [])
    && CountNextFrames(r.reqs) <= NextFrames(ctl[..r.k]) + (if queued == 1 then 1 else 0)
    && (Shutdown in r.reqs <==> queued == 2 || MeetsShutdown(ctl[..r.k]))
  }

  lemma ReadRequestsTakes(ctl: seq<Record>, queued: nat, preserveAck: bool, avails: seq<nat>, calls: nat, hangup: bool)
    requires queued <= 2 && (calls > 0 || queued == 0)
    ensures Took(ctl, queued, preserveAck, ReadRequests(ctl, queued, preserveAck, avails, calls, hangup))
    decreases calls
  {
    assert ctl[..0] == [];
    if calls > 0 {
      if queued != 0 {
        ThenTakes(ByteType(queued - 1), ctl, 0, preserveAck, avails, calls, hangup);
      } else if avails != [] {
        var k := RequestTakes(ctl, avails[0], preserveAck, LOOP_LIMIT);
        RequestTakesShape(ctl, avails[0], preserveAck, LOOP_LIMIT);
        if k > 0 && ctl[k - 1].RequestRecord? {
          TookRequest(ctl, k, preserveAck);
          ThenTakes(ctl[k - 1].request, ctl, k, preserveAck, avails[1..], calls, hangup);
        } else {
          OnlyAcks(ctl[..k]);
        }
      }
    }
  }

  lemma ThenTakes(q: Request, ctl: seq<Record>, k: nat, preserveAck: bool, avails: seq<nat>, calls: nat, hangup: bool)
    requires k <= |ctl| && calls > 0 && (preserveAck ==> Acks(ctl[..k]) == [])
    requires NextFrames(ctl[..k]) == 0 || (q == NextFrame && NextFrames(ctl[..k]) == 1)
    requires MeetsShutdown(ctl[..k]) ==> q == Shutdown
    ensures var r := Then(q, ctl, k, preserveAck, avails, calls, hangup);
            && r.k <= |ctl| && r.queued == 0
            && (preserveAck ==> Acks(ctl[..r.k]) == [])
            && CountNextFrames(r.reqs) + NextFrames(ctl[..k])
               <= NextFrames(ctl[..r.k]) + (if q == NextFrame then 1 else 0)
            && (Shutdown in r.reqs <==> q == Shutdown || MeetsShutdown(ctl[..r.k]))
    decreases calls, 0
  {
    var r := Then(q, ctl, k, preserveAck, avails, calls, hangup);
    if q == Shutdown {
      assert CountNextFrames([q]) == 0;
    } else {
      var rest := ReadRequests(ctl[k..], 0, preserveAck, avails, calls - 1, hangup);
      ReadRequestsTakes(ctl[k..], 0, preserveAck, avails, calls - 1, hangup);
      CountSplits([q], rest.reqs);
      assert CountNextFrames([q]) == 1;
      assert ctl[..r.k][..k] == ctl[..k] && ctl[..r.k][k..] == ctl[k..][..rest.k];
      NextFramesSplit(ctl[..r.k], k);
      AcksSplit(ctl[..r.k], k);
      MeetsSplit(ctl[..r.k], k);
    }
  }

  /** The only acknowledgement taken is the one handed over, and the requests are
      accounted for. */
  predicate AccountsFor(pending: bool, ctl: seq<Record>, r: Reading)
    requires r.k <= |ctl|
  {
    && r.queued == 0 && (r.ack.Some? ==> pending)
    && Acks(ctl[..r.k]) == (if r.ack.Some? then [r.ack.value] else [])
    && CountNextFrames(r.reqs) <= NextFrames(ctl[..r.k])
    && (Shutdown in r.reqs <==> MeetsShutdown(ctl[..r.k]))
  }

  /** One poll, on a stream that holds an ACK only if a frame is pending. */
  lemma ReadTakes(pending: bool, net: Net, first: nat, avails: seq<nat>, hangup: Hangup)
    requires net.queued == 0 && |Acks(net.ctl)| <= (if pending then 1 else 0)
    ensures var r := Read(pending, net, first, avails, hangup);
            && r.queued == 0 && (r.ack.Some? ==> pending)
            && Acks(net.ctl[..r.k]) == (if r.ack.Some? then [r.ack.value] else [])
            && CountNextFrames(r.reqs) <= NextFrames(net.ctl[..r.k])
            && (Shutdown in r.reqs <==> MeetsShutdown(net.ctl[..r.k]))
  {
    if pending && hangup == AtAck {
      NothingRead(pending, net, first, avails);
    } else {
      var a, rest := ReadInTwo(pending, net, first, avails, hangup);
      hide Read;
      TwoAccount(pending, net.ctl, Read(pending, net, first, avails, hangup), a, rest);
    }
    hide Read, Acks, NextFrames, MeetsShutdown, CountNextFrames;
  }

  lemma NothingRead(pending: bool, net: Net, first: nat, avails: seq<nat>)
    requires pending && net.queued == 0
    ensures AccountsFor(pending, net.ctl, Read(pending, net, first, avails, AtAck))
  {
    assert net.ctl[..0] == [];
  }

  lemma TwoAccount(pending: bool, ctl: seq<Record>, r: Reading, a: nat, rest: Received)
    requires |Acks(ctl)| <= (if pending then 1 else 0) && a <= |ctl| && (!pending ==> a == 0)
    requires r.k == a + rest.k <= |ctl| && r.reqs == rest.reqs && r.queued == rest.queued
    requires r.ack == (if Acks(ctl[..a]) == [] then None else Some(Acks(ctl[..a])[0]))
    requires Took(ctl[a..], Queue(0, ctl[..a]), pending && r.ack.None?, rest)
    ensures AccountsFor(pending, ctl, r)
  {
    QueueKeepsShutdown(0, ctl[..a]);
    QueueHoldsOne(0, ctl[..a]);
    assert ctl[..0] == [];
    hide Queue, NextFrames, MeetsShutdown, CountNextFrames;
    JoinedTakes(ctl, a, r.k, Queue(0, ctl[..a]), r.reqs);
    OneAckTaken(ctl, a, r.k, pending);
  }

  /** The ACK and what lies before it, then the requests. */
  lemma ReadInTwo(pending: bool, net: Net, first: nat, avails: seq<nat>, hangup: Hangup)
    returns (a: nat, rest: Received)
    requires net.queued == 0 && !(pending && hangup == AtAck)
    ensures a <= |net.ctl| && (!pending ==> a == 0)
    ensures var r, ctl := Read(pending, net, first, avails, hangup), net.ctl;
            && r.k == a + rest.k && r.reqs == rest.reqs && r.queued == rest.queued
            && r.ack == (if Acks(ctl[..a]) == [] then None else Some(Acks(ctl[..a])[0]))
            && Took(ctl[a..], Queue(0, ctl[..a]), pending && r.ack.None?, rest)
  {
    var ctl := net.ctl;
    a := if pending then AckTakes(ctl, first, LOOP_LIMIT) else 0;
    var keep := pending && FirstAck(Acks(ctl[..a])).None?;
    QueueBound(0, ctl[..a]);
    rest := ReadRequests(ctl[a..], Queue(0, ctl[..a]), keep, avails, POLL_LIMIT, hangup == AtRequest);
    ReadRequestsTakes(ctl[a..], Queue(0, ctl[..a]), keep, avails, POLL_LIMIT, hangup == AtRequest);
  }

  /** What was queued on the way to the ACK comes out with the requests after it. */
  lemma JoinedTakes(ctl: seq<Record>, a: nat, k: nat, q: nat, reqs: seq<Request>)
    requires a <= k <= |ctl|
    requires (q == 2 <==> MeetsShutdown(ctl[..a])) && (q == 1 ==> NextFrames(ctl[..a]) > 0)
    requires CountNextFrames(reqs) <= NextFrames(ctl[a..][..k - a]) + (if q == 1 then 1 else 0)
    requires Shutdown in reqs <==> q == 2 || MeetsShutdown(ctl[a..][..k - a])
    ensures CountNextFrames(reqs) <= NextFrames(ctl[..k])
    ensures Shutdown in reqs <==> MeetsShutdown(ctl[..k])
  {
    SplitsAt(ctl, a, k);
    NextFramesSplit(ctl[..k], a);
    MeetsSplit(ctl[..k], a);
  }

  lemma SplitsAt(ctl: seq<Record>, a: nat, k: nat)
    requires a <= k <= |ctl|
    ensures ctl[..k][..a] == ctl[..a] && ctl[..k][a..] == ctl[a..][..k - a]
  {
  }

  /** Of at most one ACK, either the first part has it or, if the rest may take
      none or there is none left, none is taken. */
  lemma OneAckTaken(ctl: seq<Record>, a: nat, k: nat, pending: bool)
    requires a <= k <= |ctl| && |Acks(ctl)| <= (if pending then 1 else 0) && (!pending ==> a == 0)
    requires pending && Acks(ctl[..a]) == [] ==> Acks(ctl[a..][..k - a]) == []
    ensures Acks(ctl[..k]) == if Acks(ctl[..a]) == [] then [] else [Acks(ctl[..a])[0]]
  {
    SplitsAt(ctl, a, k);
    AcksSplit(ctl[..k], a);
    AcksSplit(ctl, k);
  }

  // ----- The same on bytes -----

  /** With a frame pending the poll hands over what wait_ack finds in the bytes
      that have arrived, which leaves whole records. */
  lemma ReadIsWaitAck(net: Net, buf: seq<byte>, avails: seq<nat>, hangup: Hangup)
    requires net.queued <= 2 && AtBoundary(buf, net.ctl) && hangup != AtAck
    ensures var after, a := WaitAck(buf, net.queued, LOOP_LIMIT), AckTakes(net.ctl, |buf|, LOOP_LIMIT);
            && Read(true, net, |buf|, avails, hangup).ack
               == (if after.outcome.GotAck? then Some(after.outcome.ack) else None)
            && after.queued == Queue(net.queued, net.ctl[..a]) && AtBoundary(after.buf, net.ctl[a..])
  {
    WaitAckTakesRecords(net.ctl, buf, net.queued, LOOP_LIMIT);
  }

  /** Each receive of the loop returns what recv_request finds, and the rest of
      the loop goes on with what recv_request leaves. */
  lemma ReadIsRecvRequest(ctl: seq<Record>, buf: seq<byte>, queued: nat, preserveAck: bool, avails: seq<nat>,
                          calls: nat, hangup: bool)
    returns (k: nat)
    requires queued <= 2 && calls > 0 && AtBoundary(buf, ctl)
    requires queued == 0 ==> avails != [] && avails[0] == |buf|
    ensures var after, r := RecvRequest(buf, queued, preserveAck),
                            ReadRequests(ctl, queued, preserveAck, avails, calls, hangup);
            && k <= |ctl| && AtBoundary(after.buf, ctl[k..]) && after.queued == 0
            && (after.outcome == Again || after.outcome.GotRequest?)
            && (after.outcome == Again ==> r == Received([], k, 0, true))
            && (after.outcome.GotRequest? ==>
                  r == Then(after.outcome.request, ctl, k, preserveAck, if queued == 0 then avails[1..] else avails,
                            calls, hangup))
  {
    if queued != 0 {
      k := 0;
      assert ctl[0..] == ctl;
      hide AtBoundary, RecvFresh, Then;
    } else {
      k := FreshIsRecvRequest(ctl, buf, preserveAck, avails, calls, hangup);
    }
  }

  lemma FreshIsRecvRequest(ctl: seq<Record>, buf: seq<byte>, preserveAck: bool, avails: seq<nat>, calls: nat,
                           hangup: bool)
    returns (k: nat)
    requires calls > 0 && AtBoundary(buf, ctl) && avails != [] && avails[0] == |buf|
    ensures var after, r := RecvRequest(buf, 0, preserveAck),
                            ReadRequests(ctl, 0, preserveAck, avails, calls, hangup);
            && k <= |ctl| && AtBoundary(after.buf, ctl[k..]) && after.queued == 0
            && (after.outcome == Again || after.outcome.GotRequest?)
            && (after.outcome == Again ==> r == Received([], k, 0, true))
            && (after.outcome.GotRequest? ==>
                  r == Then(after.outcome.request, ctl, k, preserveAck, avails[1..], calls, hangup))
  {
    hide AtBoundary, RecvFresh, RequestTakes, Then;
    k := RequestTakes(ctl, |buf|, preserveAck, LOOP_LIMIT);
    RecvFreshTakesRecords(ctl, buf, preserveAck, LOOP_LIMIT);
  }
}
