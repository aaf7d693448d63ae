/** The demultiplexer of the control stream: peek, then consume whole records,
    with a one-byte queue for requests met while waiting for an ACK. */
module ControlStream {
  import opened Bytes
  import opened ControlWire

  const LOOP_LIMIT: nat := 256

  /** How one call ends. Broken means the connection was dropped. */
  datatype Outcome = Again | GotAck(ack: AckMsg) | GotRequest(request: Request) | Broken

  /** A call's outcome, the unread bytes and the queue byte after it. */
  datatype After = After(outcome: Outcome, buf: seq<byte>, queued: nat)

  const DROPPED: After := After(Broken, [], 0)

  /** Queue byte: 0 empty, 1 NEXT_FRAME, 2 SHUTDOWN, which is never replaced. */
  function Coalesce(queued: nat, r: Request): nat {
    if r == Shutdown || queued == 0 then TypeByte(r) as nat + 1 else queued
  }

  // ----- What the calls do to the bytes -----

  /** One turn of either loop: stop with a result, or go on. */
  datatype Turn = Stop(after: After) | Next(buf: seq<byte>, queued: nat)

  function WaitAckTurn(buf: seq<byte>, queued: nat): (t: Turn)
    ensures t.Next? ==> |t.buf| < |buf|
  {
    if |buf| == 0 then Stop(After(Again, buf, queued))
    else if buf[0] as nat >= REQUEST_TAG then
      var kind := buf[0] as nat - REQUEST_TAG;
      if |buf| < REQUEST_SIZE then Stop(After(Again, buf, queued))
      else if kind > 1 then Stop(DROPPED)
      else Next(buf[REQUEST_SIZE..], Coalesce(queued, ByteType(kind)))
    else if buf[0] > 2 then Stop(DROPPED)
    else if |buf| < ACK_SIZE then Stop(After(Again, buf, queued))
    else Stop(After(GotAck(DecodeAck(buf)), buf[ACK_SIZE..], queued))
  }

  function WaitAck(buf: seq<byte>, queued: nat, fuel: nat): After
    decreases |buf|
  {
    if fuel == 0 then After(Again, buf, queued)
    else
      match WaitAckTurn(buf, queued)
      case Stop(after) => after
      case Next(rest, q) => WaitAck(rest, q, fuel - 1)
  }

  function RequestTurn(buf: seq<byte>, preserveAck: bool): (t: Turn)
    ensures t.Next? ==> |t.buf| < |buf|
  {
    if |buf| == 0 then Stop(After(Again, buf, 0))
    else if buf[0] as nat >= REQUEST_TAG then
      var kind := buf[0] as nat - REQUEST_TAG;
      if |buf| < REQUEST_SIZE then Stop(After(Again, buf, 0))
      else if kind > 1 then Stop(DROPPED)
      else Stop(After(GotRequest(ByteType(kind)), buf[REQUEST_SIZE..], 0))
    else if buf[0] > 2 then Stop(DROPPED)
    else if preserveAck || |buf| < ACK_SIZE then Stop(After(Again, buf, 0))
    else Next(buf[ACK_SIZE..], 0)
  }

  /** recv_request once the queue is known to be empty. */
  function RecvFresh(buf: seq<byte>, preserveAck: bool, fuel: nat): After
    decreases |buf|
  {
    if fuel == 0 then After(Again, buf, 0)
    else
      match RequestTurn(buf, preserveAck)
      case Stop(after) => after
      case Next(rest, _) => RecvFresh(rest, preserveAck, fuel - 1)
  }

  /** A queued request is returned before the stream is looked at. */
  function RecvRequest(buf: seq<byte>, queued: nat, preserveAck: bool): After
    requires queued <= 2
  {
    if queued != 0 then After(GotRequest(ByteType(queued - 1)), buf, 0)
    else RecvFresh(buf, preserveAck, LOOP_LIMIT)
  }

  // ----- The same calls seen on whole records -----

  /** Which leading records a wait_ack takes when avail bytes have arrived. */
  function AckTakes(rs: seq<Record>, avail: nat, fuel: nat): (k: nat)
    ensures k <= |rs| && k <= fuel
    decreases |rs|
  {
    if fuel == 0 || rs == [] || avail < Size(rs[0]) then 0
    else if rs[0].AckRecord? then 1
    else 1 + AckTakes(rs[1..], avail - REQUEST_SIZE, fuel - 1)
  }

  /** The same for a recv_request with an empty queue. */
  function RequestTakes(rs: seq<Record>, avail: nat, preserveAck: bool, fuel: nat): (k: nat)
    ensures k <= |rs| && k <= fuel
    decreases |rs|
  {
    if fuel == 0 || rs == [] || avail < Size(rs[0]) then 0
    else if rs[0].RequestRecord? then 1
    else if preserveAck then 0
    else 1 + RequestTakes(rs[1..], avail - ACK_SIZE, preserveAck, fuel - 1)
  }

  function Queue(queued: nat, rs: seq<Record>): nat
    decreases |rs|
  {
    if rs == [] then queued
    else Queue(if rs[0].RequestRecord? then Coalesce(queued, rs[0].request) else queued, rs[1..])
  }

  function Acks(rs: seq<Record>): seq<AckMsg> {
    if rs == [] then []
    else (if rs[0].AckRecord? then [rs[0].ack] else []) + Acks(rs[1..])
  }

  lemma {:induction false} AcksSplit(rs: seq<Record>, k: nat)
    requires k <= |rs|
    ensures Acks(rs) == Acks(rs[..k]) + Acks(rs[k..])
  {
    if k > 0 {
      AcksSplit(rs[1..], k - 1);
      assert rs[1..][..k - 1] == rs[..k][1..];
      assert rs[1..][k - 1..] == rs[k..];
    } else {
      assert rs[..0] == [] && rs[0..] == rs;
    }
  }

  /** The unread bytes begin at a record boundary: they are the beginning of
      the encoding of the records not yet taken. */
  predicate AtBoundary(buf: seq<byte>, rs: seq<Record>) {
    ValidRecords(rs) && buf <= EncodeAll(rs)
  }

  lemma FirstByte(buf: seq<byte>, rs: seq<Record>)
    requires AtBoundary(buf, rs) && rs != [] && |buf| > 0
    ensures rs[0].RequestRecord? ==> buf[0] as nat == REQUEST_TAG + TypeByte(rs[0].request) as nat
    ensures rs[0].AckRecord? ==> buf[0] == CodeByte(rs[0].ack.code)
  {
    assert EncodeAll(rs)[0] == Encode(rs[0])[0];
  }

  lemma PrefixDrops(buf: seq<byte>, first: seq<byte>, rest: seq<byte>)
    requires buf <= first + rest && |buf| >= |first|
    ensures buf == first + buf[|first|..] && buf[|first|..] <= rest
  {
    assert (first + rest)[..|first|] == first && (first + rest)[|first|..] == rest;
    assert buf[|first|..] == rest[..|buf| - |first|];
  }

  lemma DropFirst(buf: seq<byte>, rs: seq<Record>)
    requires AtBoundary(buf, rs) && rs != [] && |buf| >= Size(rs[0])
    ensures AtBoundary(buf[Size(rs[0])..], rs[1..])
    ensures rs[0].AckRecord? ==> buf[0] <= 2 && DecodeAck(buf) == rs[0].ack
  {
    var n := Size(rs[0]);
    assert EncodeAll(rs) == Encode(rs[0]) + EncodeAll(rs[1..]);
    PrefixDrops(buf, Encode(rs[0]), EncodeAll(rs[1..]));
    hide EncodeAll;
    if rs[0].AckRecord? {
      AckRoundTrip(rs[0].ack, buf[n..]);
    }
  }

  /** What wait_ack owes a well-formed stream when it has taken k records: a
      boundary, exactly the requests it met queued, and the ACK it took last,
      if any, returned. */
  predicate WaitAckPost(rs: seq<Record>, queued: nat, fuel: nat, after: After, k: nat) {
    && k <= |rs|
    && AtBoundary(after.buf, rs[k..])
    && after.queued == Queue(queued, rs[..k])
    && |Acks(rs[..k])| <= 1
    && after.outcome == (if Acks(rs[..k]) == [] then Again else GotAck(Acks(rs[..k])[0]))
    && (after.outcome == Again ==> k == fuel || k == |rs| || |after.buf| < Size(rs[k]))
  }

  lemma WaitAckPrepend(rs: seq<Record>, queued: nat, fuel: nat, after: After, k: nat)
    requires rs != [] && rs[0].RequestRecord? && fuel > 0
    requires WaitAckPost(rs[1..], Coalesce(queued, rs[0].request), fuel - 1, after, k)
    ensures WaitAckPost(rs, queued, fuel, after, k + 1)
  {
    assert rs[..k + 1][1..] == rs[1..][..k];
    assert rs[k + 1..] == rs[1..][k..];
  }

  lemma WaitAckStops(rs: seq<Record>, buf: seq<byte>, queued: nat, fuel: nat)
    requires AtBoundary(buf, rs) && (fuel == 0 || rs == [] || |buf| < Size(rs[0]))
    ensures WaitAckPost(rs, queued, fuel, After(Again, buf, queued), 0)
  {
    assert rs[..0] == [] && rs[0..] == rs;
  }

  lemma WaitAckEnds(rs: seq<Record>, buf: seq<byte>, queued: nat, fuel: nat)
    requires rs != [] && rs[0].AckRecord? && AtBoundary(buf, rs[1..])
    ensures WaitAckPost(rs, queued, fuel, After(GotAck(rs[0].ack), buf, queued), 1)
  {
    assert rs[..1] == [rs[0]];
    assert Acks([rs[0]]) == [rs[0].ack];
  }

  /** One turn of the wait_ack loop on well-formed bytes. */
  lemma WaitAckTurnOnRecord(rs: seq<Record>, buf: seq<byte>, queued: nat)
    requires AtBoundary(buf, rs)
    ensures rs == [] || |buf| < Size(rs[0]) ==> WaitAckTurn(buf, queued) == Stop(After(Again, buf, queued))
    ensures rs != [] && |buf| >= Size(rs[0]) ==>
              && AtBoundary(buf[Size(rs[0])..], rs[1..])
              && WaitAckTurn(buf, queued)
                 == match rs[0]
                    case RequestRecord(q) => Next(buf[REQUEST_SIZE..], Coalesce(queued, q))
                    case AckRecord(a) => Stop(After(GotAck(a), buf[ACK_SIZE..], queued))
  {
    if rs != [] && |buf| > 0 {
      FirstByte(buf, rs);
      if |buf| >= Size(rs[0]) {
        DropFirst(buf, rs);
      }
    }
  }

  /** wait_ack told in records: the first k are gone, their bytes with them. */
  function WaitAckRecords(rs: seq<Record>, buf: seq<byte>, queued: nat, fuel: nat): (r: (After, nat))
    requires AtBoundary(buf, rs)
    ensures r.0 == WaitAck(buf, queued, fuel) && r.1 == AckTakes(rs, |buf|, fuel)
    ensures WaitAckPost(rs, queued, fuel, r.0, r.1)
    decreases |rs|
  {
    WaitAckTurnOnRecord(rs, buf, queued);
    if fuel == 0 || rs == [] || |buf| < Size(rs[0]) then
      WaitAckStops(rs, buf, queued, fuel);
      (After(Again, buf, queued), 0)
    else
      match rs[0]
      case AckRecord(a) =>
        WaitAckEnds(rs, buf[ACK_SIZE..], queued, fuel);
        (After(GotAck(a), buf[ACK_SIZE..], queued), 1)
      case RequestRecord(q) =>
        var rest := WaitAckRecords(rs[1..], buf[REQUEST_SIZE..], Coalesce(queued, q), fuel - 1);
        WaitAckPrepend(rs, queued, fuel, rest.0, rest.1);
        (rest.0, rest.1 + 1)
  }

  /** wait_ack never breaks a well-formed stream and takes whole records only. */
  lemma WaitAckTakesRecords(rs: seq<Record>, buf: seq<byte>, queued: nat, fuel: nat)
    requires AtBoundary(buf, rs)
    ensures WaitAckPost(rs, queued, fuel, WaitAck(buf, queued, fuel), AckTakes(rs, |buf|, fuel))
  {
    var r := WaitAckRecords(rs, buf, queued, fuel);
    assert r.0 == WaitAck(buf, queued, fuel) && r.1 == AckTakes(rs, |buf|, fuel);
  }

  /** recv_request on an empty queue: whole records only, a boundary after it,
      the request it took last, if any; all other records it took are ACKs, and
      the preserving call takes none of those. */
  predicate RecvFreshPost(rs: seq<Record>, preserveAck: bool, after: After, k: nat) {
    && k <= |rs|
    && AtBoundary(after.buf, rs[k..])
    && after.queued == 0
    && after.outcome == (if k > 0 && rs[k - 1].RequestRecord? then GotRequest(rs[k - 1].request) else Again)
    && (forall j | 0 <= j < k - 1 :: rs[j].AckRecord?)
    && (preserveAck ==> k == 0 || (k == 1 && rs[0].RequestRecord?))
  }

  lemma RecvFreshPrepend(rs: seq<Record>, preserveAck: bool, after: After, k: nat)
    requires rs != [] && rs[0].AckRecord? && !preserveAck && RecvFreshPost(rs[1..], preserveAck, after, k)
    ensures RecvFreshPost(rs, preserveAck, after, k + 1)
  {
    assert rs[k + 1..] == rs[1..][k..];
    assert k > 0 ==> rs[k] == rs[1..][k - 1];
    assert forall j | 0 < j < k :: rs[j] == rs[1..][j - 1];
  }

  lemma RequestTurnOnRecord(rs: seq<Record>, buf: seq<byte>, preserveAck: bool)
    requires AtBoundary(buf, rs)
    ensures rs == [] || |buf| < Size(rs[0]) ==> RequestTurn(buf, preserveAck) == Stop(After(Again, buf, 0))
    ensures rs != [] && |buf| >= Size(rs[0]) ==>
              && AtBoundary(buf[Size(rs[0])..], rs[1..])
              && RequestTurn(buf, preserveAck)
                 == match rs[0]
                    case RequestRecord(q) => Stop(After(GotRequest(q), buf[REQUEST_SIZE..], 0))
                    case AckRecord(_) => if preserveAck then Stop(After(Again, buf, 0)) else Next(buf[ACK_SIZE..], 0)
  {
    if rs != [] && |buf| > 0 {
      FirstByte(buf, rs);
      if |buf| >= Size(rs[0]) {
        DropFirst(buf, rs);
      }
    }
  }

  lemma RecvFreshStops(rs: seq<Record>, buf: seq<byte>, preserveAck: bool)
    requires AtBoundary(buf, rs)
    ensures RecvFreshPost(rs, preserveAck, After(Again, buf, 0), 0)
  {
    assert rs[0..] == rs;
  }

  lemma RecvFreshEnds(rs: seq<Record>, buf: seq<byte>, preserveAck: bool)
    requires rs != [] && rs[0].RequestRecord? && AtBoundary(buf, rs[1..])
    ensures RecvFreshPost(rs, preserveAck, After(GotRequest(rs[0].request), buf, 0), 1)
  {
  }

  /** recv_request told in records. */
  function RecvFreshRecords(rs: seq<Record>, buf: seq<byte>, preserveAck: bool, fuel: nat): (r: (After, nat))
    requires AtBoundary(buf, rs)
    ensures r.0 == RecvFresh(buf, preserveAck, fuel) && r.1 == RequestTakes(rs, |buf|, preserveAck, fuel)
    ensures RecvFreshPost(rs, preserveAck, r.0, r.1)
    decreases |rs|
  {
    RequestTurnOnRecord(rs, buf, preserveAck);
    if fuel == 0 || rs == [] || |buf| < Size(rs[0]) || (preserveAck && rs[0].AckRecord?) then
      RecvFreshStops(rs, buf, preserveAck);
      (After(Again, buf, 0), 0)
    else
      match rs[0]
      case RequestRecord(q) =>
        RecvFreshEnds(rs, buf[REQUEST_SIZE..], preserveAck);
        (After(GotRequest(q), buf[REQUEST_SIZE..], 0), 1)
      case AckRecord(_) =>
        var rest := RecvFreshRecords(rs[1..], buf[ACK_SIZE..], preserveAck, fuel - 1);
        RecvFreshPrepend(rs, preserveAck, rest.0, rest.1);
        (rest.0, rest.1 + 1)
  }

  lemma RecvFreshTakesRecords(rs: seq<Record>, buf: seq<byte>, preserveAck: bool, fuel: nat)
    requires AtBoundary(buf, rs)
    ensures RecvFreshPost(rs, preserveAck, RecvFresh(buf, preserveAck, fuel),
                          RequestTakes(rs, |buf|, preserveAck, fuel))
  {
    var r := RecvFreshRecords(rs, buf, preserveAck, fuel);
    assert r.0 == RecvFresh(buf, preserveAck, fuel) && r.1 == RequestTakes(rs, |buf|, preserveAck, fuel);
  }
}
