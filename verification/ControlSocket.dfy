/** The producer's end of the control stream as an object: every call in any
    order, with bytes arriving in arbitrary chunks in between. */
module ControlSocket {
  import opened Bytes
  import opened ControlWire
  import opened ControlStream

  /** How poll answers before the receive loops. */
  datatype PollAnswer = Quiet | Hangup | Readable

  predicate MeetsShutdown(rs: seq<Record>) {
    exists k :: 0 <= k < |rs| && rs[k] == RequestRecord(Shutdown)
  }

  /** SHUTDOWN is never lost in the queue byte, and never invented. */
  lemma {:induction false} QueueKeepsShutdown(queued: nat, rs: seq<Record>)
    requires queued <= 2
    ensures Queue(queued, rs) <= 2
    ensures Queue(queued, rs) == 2 <==> queued == 2 || MeetsShutdown(rs)
    decreases |rs|
  {
    if rs != [] {
      var q := if rs[0].RequestRecord? then Coalesce(queued, rs[0].request) else queued;
      QueueKeepsShutdown(q, rs[1..]);
      if MeetsShutdown(rs[1..]) {
        var k :| 0 <= k < |rs[1..]| && rs[1..][k] == RequestRecord(Shutdown);
        assert rs[k + 1] == RequestRecord(Shutdown);
      } else if MeetsShutdown(rs) {
        var k :| 0 <= k < |rs| && rs[k] == RequestRecord(Shutdown);
        assert k > 0 ==> rs[1..][k - 1] == RequestRecord(Shutdown);
      }
    }
  }

  class ControlSocket {
    var connected: bool
    /** Bytes the kernel has received and nobody has consumed. */
    var buf: seq<byte>
    var queued: nat

    /** Records the peer has sent that were not consumed, arrived or not. */
    ghost var unread: seq<Record>
    ghost var acksSent: seq<AckMsg>
    /** ACKs delivered by wait_ack or discarded as stale, in stream order. */
    ghost var acksTaken: seq<AckMsg>
    /** A SHUTDOWN was taken off the stream and not returned yet. */
    ghost var shutdownOwed: bool

    ghost predicate Valid()
      reads this
    {
      && queued <= 2
      && (shutdownOwed <==> queued == 2)
      && (connected ==> AtBoundary(buf, unread) && acksTaken + Acks(unread) == acksSent)
    }

    constructor ()
      ensures Valid() && connected && unread == [] && acksSent == []
    {
      connected, buf, queued := true, [], 0;
      unread, acksSent, acksTaken, shutdownOwed := [], [], [], false;
    }

    method Disconnect()
      modifies this`connected, this`buf, this`queued, this`shutdownOwed
      ensures Valid() && !connected && queued == 0 && buf == [] && !shutdownOwed
    {
      connected, buf := false, [];
      queued := 0;
      shutdownOwed := false;
    }

    /** The peer writes a record; none of its bytes need arrive yet. */
    ghost method PeerSends(r: Record)
      requires Valid() && connected && ValidRecord(r)
      modifies this`unread, this`acksSent
      ensures Valid()
      ensures unread == old(unread) + [r] && acksSent == old(acksSent) + Acks([r])
    {
      EncodeAppend(unread, r);
      AcksSplit(unread + [r], |unread|);
      assert (unread + [r])[..|unread|] == unread && (unread + [r])[|unread|..] == [r];
      unread, acksSent := unread + [r], acksSent + Acks([r]);
    }

    /** Any further chunk of the sent bytes arrives. */
    method Arrive(chunk: seq<byte>)
      requires Valid() && connected && buf + chunk <= EncodeAll(unread)
      modifies this`buf
      ensures Valid() && buf == old(buf) + chunk
    {
      buf := buf + chunk;
    }

    function Peek(n: nat): seq<byte>
      reads this
    {
      if |buf| < n then buf else buf[..n]
    }

    method Take(n: nat)
      requires n <= |buf|
      modifies this`buf
      ensures buf == old(buf)[n..]
    {
      buf := buf[n..];
    }

    /** tp_socket_wait_ack. */
    method AwaitAck(poll: PollAnswer) returns (ack: Option<AckMsg>)
      requires Valid()
      modifies this
      ensures Valid()
      ensures !old(connected) || poll != Readable ==> ack == None
      ensures !old(connected) || poll == Quiet ==>
                buf == old(buf) && queued == old(queued) && connected == old(connected)
      ensures old(connected) && poll == Hangup ==> !connected && queued == 0
      ensures old(connected) && poll == Readable ==>
                var k := AckTakes(old(unread), |old(buf)|, LOOP_LIMIT);
                && connected
                && After(if ack.Some? then GotAck(ack.value) else Again, buf, queued)
                   == WaitAck(old(buf), old(queued), LOOP_LIMIT)
                && unread == old(unread)[k..]
                && acksTaken == old(acksTaken) + (if ack.Some? then [ack.value] else [])
      ensures acksSent == old(acksSent)
    {
      if !connected || poll == Quiet {
        return None;
      }
      if poll == Hangup {
        Disconnect();
        return None;
      }
      ghost var k := AckTakes(unread, |buf|, LOOP_LIMIT);
      WaitAckHistory(unread, buf, queued, acksTaken, acksSent, LOOP_LIMIT);
      var outcome := AwaitLoop();
      ack := if outcome.GotAck? then Some(outcome.ack) else None;
      acksTaken := acksTaken + (if ack.Some? then [ack.value] else []);
      shutdownOwed := shutdownOwed || MeetsShutdown(unread[..k]);
      unread := unread[k..];
    }

    /** The demultiplexing loop. */
    method AwaitLoop() returns (outcome: Outcome)
      requires connected && queued <= 2
      modifies this`buf, this`queued, this`connected, this`shutdownOwed
      ensures After(outcome, buf, queued) == WaitAck(old(buf), old(queued), LOOP_LIMIT)
      ensures connected <==> outcome != Broken
      ensures outcome != Broken ==> shutdownOwed == old(shutdownOwed)
    {
      ghost var fuel := LOOP_LIMIT;
      for i := 0 to LOOP_LIMIT
        invariant fuel == LOOP_LIMIT - i && connected && queued <= 2 && shutdownOwed == old(shutdownOwed)
        invariant WaitAck(buf, queued, fuel) == WaitAck(old(buf), old(queued), LOOP_LIMIT)
      {
        var first := Peek(1);
        if |first| != 1 {
          return Again;
        }
        if first[0] as nat >= REQUEST_TAG {
          var wire := Peek(REQUEST_SIZE);
          if |wire| != REQUEST_SIZE {
            return Again;
          }
          Take(REQUEST_SIZE);
          var kind := wire[0] as nat - REQUEST_TAG;
          if kind > TypeByte(Shutdown) as nat {
            Disconnect();
            return Broken;
          }
          if kind == TypeByte(Shutdown) as nat || queued == 0 {
            queued := kind + 1;
          }
          fuel := fuel - 1;
        } else {
          if first[0] > CodeByte(Discarded) {
            Disconnect();
            return Broken;
          }
          var wire := Peek(ACK_SIZE);
          if |wire| != ACK_SIZE {
            return Again;
          }
          assert DecodeAck(wire) == DecodeAck(buf);
          Take(ACK_SIZE);
          return GotAck(DecodeAck(wire));
        }
      }
      return Again;
    }

    /** tp_socket_recv_request and its preserving variant. A SHUTDOWN owed from
        an earlier wait_ack is returned now; the preserving call leaves every
        ACK in the stream. */
    method ReceiveRequest(poll: PollAnswer, preserveAck: bool) returns (req: Option<Request>)
      requires Valid()
      modifies this
      ensures Valid() && acksSent == old(acksSent)
      ensures !old(connected) ==> req == None && !connected && queued == old(queued)
      ensures old(connected) && old(shutdownOwed) ==> req == Some(Shutdown) && connected
      ensures old(connected) && old(queued) != 0 ==>
                req == Some(ByteType(old(queued) - 1)) && queued == 0 && buf == old(buf) && unread == old(unread)
      ensures old(connected) && old(queued) == 0 && poll == Hangup ==> req == None && !connected
      ensures old(connected) && old(queued) == 0 && poll == Quiet ==>
                req == None && connected && queued == 0 && buf == old(buf) && unread == old(unread)
      ensures old(connected) && old(queued) == 0 && poll == Readable ==>
                var k := RequestTakes(old(unread), |old(buf)|, preserveAck, LOOP_LIMIT);
                && connected && queued == 0
                && After(if req.Some? then GotRequest(req.value) else Again, buf, 0)
                   == RecvFresh(old(buf), preserveAck, LOOP_LIMIT)
                && unread == old(unread)[k..]
                && (MeetsShutdown(old(unread)[..k]) ==> req == Some(Shutdown))
      ensures preserveAck ==> acksTaken == old(acksTaken)
    {
      if !connected {
        return None;
      }
      if queued != 0 {
        req := Some(ByteType(queued - 1));
        queued := 0;
        shutdownOwed := false;
        return;
      }
      if poll == Quiet {
        return None;
      }
      if poll == Hangup {
        Disconnect();
        return None;
      }
      ghost var after, k := RecvFreshHistory(unread, buf, preserveAck, acksTaken, acksSent, LOOP_LIMIT);
      var outcome := ReceiveLoop(preserveAck);
      acksTaken := acksTaken + Acks(unread[..k]);
      unread := unread[k..];
      req := if outcome.GotRequest? then Some(outcome.request) else None;
    }

    method ReceiveLoop(preserveAck: bool) returns (outcome: Outcome)
      requires connected && queued == 0 && !shutdownOwed
      modifies this`buf, this`queued, this`connected, this`shutdownOwed
      ensures After(outcome, buf, queued) == RecvFresh(old(buf), preserveAck, LOOP_LIMIT)
      ensures connected <==> outcome != Broken
      ensures queued == 0 && !shutdownOwed
    {
      ghost var fuel := LOOP_LIMIT;
      for i := 0 to LOOP_LIMIT
        invariant fuel == LOOP_LIMIT - i && connected && queued == 0 && !shutdownOwed
        invariant RecvFresh(buf, preserveAck, fuel) == RecvFresh(old(buf), preserveAck, LOOP_LIMIT)
      {
        var first := Peek(1);
        if |first| == 0 {
          return Again;
        }
        if first[0] as nat >= REQUEST_TAG {
          var wire := Peek(REQUEST_SIZE);
          if |wire| != REQUEST_SIZE {
            return Again;
          }
          Take(REQUEST_SIZE);
          var kind := wire[0] as nat - REQUEST_TAG;
          if kind > TypeByte(Shutdown) as nat {
            Disconnect();
            return Broken;
          }
          return GotRequest(ByteType(kind));
        }
        if first[0] > CodeByte(Discarded) {
          Disconnect();
          return Broken;
        }
        if preserveAck {
          return Again;
        }
        var stale := Peek(ACK_SIZE);
        if |stale| != ACK_SIZE {
          return Again;
        }
        Take(ACK_SIZE);
        fuel := fuel - 1;
      }
      return Again;
    }
  }

  lemma {:induction false} EncodeAppend(rs: seq<Record>, r: Record)
    requires ValidRecords(rs) && ValidRecord(r)
    ensures ValidRecords(rs + [r]) && EncodeAll(rs) <= EncodeAll(rs + [r])
  {
    if rs != [] {
      EncodeAppend(rs[1..], r);
      assert (rs + [r])[1..] == rs[1..] + [r];
    }
  }

  /** What one wait_ack does to the history: the ACK it returns is the next one
      sent, and a SHUTDOWN it passes stays queued. */
  lemma WaitAckHistory(rs: seq<Record>, buf: seq<byte>, queued: nat, taken: seq<AckMsg>, sent: seq<AckMsg>,
                       fuel: nat)
    requires AtBoundary(buf, rs) && queued <= 2 && taken + Acks(rs) == sent
    ensures var after, k := WaitAck(buf, queued, fuel), AckTakes(rs, |buf|, fuel);
            && (after.outcome == Again || after.outcome.GotAck?)
            && AtBoundary(after.buf, rs[k..])
            && after.queued <= 2
            && (after.queued == 2 <==> queued == 2 || MeetsShutdown(rs[..k]))
            && taken + (if after.outcome.GotAck? then [after.outcome.ack] else []) + Acks(rs[k..]) == sent
  {
    var after, k := WaitAck(buf, queued, fuel), AckTakes(rs, |buf|, fuel);
    WaitAckTakesRecords(rs, buf, queued, fuel);
    AcksSplit(rs, k);
    QueueKeepsShutdown(queued, rs[..k]);
    assert Acks(rs[..k]) == if after.outcome.GotAck? then [after.outcome.ack] else [];
    assert taken + (Acks(rs[..k]) + Acks(rs[k..])) == taken + Acks(rs[..k]) + Acks(rs[k..]);
  }

  /** The preserving call takes no ACK, and a SHUTDOWN it takes it returns. */
  lemma PreservedAcks(rs: seq<Record>, k: nat, preserveAck: bool, after: After)
    requires RecvFreshPost(rs, preserveAck, after, k)
    ensures preserveAck ==> Acks(rs[..k]) == []
    ensures MeetsShutdown(rs[..k]) ==> after.outcome == GotRequest(Shutdown)
  {
    if preserveAck && k > 0 {
      assert rs[..k] == [rs[0]];
      assert Acks([rs[0]]) == [];
    }
    if MeetsShutdown(rs[..k]) {
      var j :| 0 <= j < k && rs[..k][j] == RequestRecord(Shutdown);
      assert rs[j] == RequestRecord(Shutdown);
    }
  }

  lemma SplitHistory(rs: seq<Record>, k: nat, taken: seq<AckMsg>, sent: seq<AckMsg>)
    requires k <= |rs| && taken + Acks(rs) == sent
    ensures taken + Acks(rs[..k]) + Acks(rs[k..]) == sent
  {
    AcksSplit(rs, k);
    assert taken + (Acks(rs[..k]) + Acks(rs[k..])) == taken + Acks(rs[..k]) + Acks(rs[k..]);
  }

  /** The same for recv_request on an empty queue: the preserving call takes no
      ACK, and a SHUTDOWN it takes it returns. */
  lemma RecvFreshHistory(rs: seq<Record>, buf: seq<byte>, preserveAck: bool, taken: seq<AckMsg>, sent: seq<AckMsg>,
                         fuel: nat)
    returns (after: After, k: nat)
    requires AtBoundary(buf, rs) && taken + Acks(rs) == sent
    ensures after == RecvFresh(buf, preserveAck, fuel) && k == RequestTakes(rs, |buf|, preserveAck, fuel)
    ensures after.outcome == Again || after.outcome.GotRequest?
    ensures k <= |rs| && AtBoundary(after.buf, rs[k..])
    ensures taken + Acks(rs[..k]) + Acks(rs[k..]) == sent
    ensures preserveAck ==> Acks(rs[..k]) == []
    ensures MeetsShutdown(rs[..k]) ==> after.outcome == GotRequest(Shutdown)
  {
    after, k := RecvFresh(buf, preserveAck, fuel), RequestTakes(rs, |buf|, preserveAck, fuel);
    RecvFreshTakesRecords(rs, buf, preserveAck, fuel);
    SplitHistory(rs, k, taken, sent);
    PreservedAcks(rs, k, preserveAck, after);
  }
}
