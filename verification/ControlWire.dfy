/** The control records that share the producer's byte stream: 8-byte tagged
    requests and 16-byte acknowledgements. */
module ControlWire {
  import opened Bytes

  const REQUEST_TAG: nat := 0x80
  const REQUEST_SIZE: nat := 8
  const ACK_SIZE: nat := 16

  datatype AckCode = Accepted | Rejected | Discarded

  /** w and h are the game's size, or zero for no resize. */
  datatype AckMsg = AckMsg(code: AckCode, w: int, h: int) {
    predicate Valid() {
      -0x8000_0000 <= w < 0x8000_0000 && -0x8000_0000 <= h < 0x8000_0000
    }
  }

  datatype Request = NextFrame | Shutdown

  datatype Record = RequestRecord(request: Request) | AckRecord(ack: AckMsg)

  predicate ValidRecord(r: Record) {
    r.AckRecord? ==> r.ack.Valid()
  }

  predicate ValidRecords(rs: seq<Record>) {
    forall k | 0 <= k < |rs| :: ValidRecord(rs[k])
  }

  function CodeByte(c: AckCode): (b: byte)
    ensures b <= 2
  {
    match c case Accepted => 0 case Rejected => 1 case Discarded => 2
  }

  function ByteCode(b: byte): AckCode
    requires b <= 2
  {
    if b == 0 then Accepted else if b == 1 then Rejected else Discarded
  }

  function TypeByte(r: Request): (b: byte)
    ensures b <= 1
  {
    match r case NextFrame => 0 case Shutdown => 1
  }

  function ByteType(b: nat): Request
    requires b <= 1
  {
    if b == 0 then NextFrame else Shutdown
  }

  function I32Bytes(n: int): (b: seq<byte>)
    requires -0x8000_0000 <= n < 0x8000_0000
    ensures |b| == 4
  {
    U32Bytes(if n < 0 then n + U32_LIMIT else n)
  }

  function I32At(b: seq<byte>, at: nat): (n: int)
    requires at + 4 <= |b|
    ensures -0x8000_0000 <= n < 0x8000_0000
  {
    var u := U32At(b, at);
    if u >= 0x8000_0000 then u - U32_LIMIT else u
  }

  function Size(r: Record): nat {
    if r.RequestRecord? then REQUEST_SIZE else ACK_SIZE
  }

  function Encode(r: Record): (b: seq<byte>)
    requires ValidRecord(r)
    ensures |b| == Size(r)
  {
    match r
    case RequestRecord(q) => [(REQUEST_TAG as byte) + TypeByte(q), 0, 0, 0, 0, 0, 0, 0]
    case AckRecord(a) => [CodeByte(a.code), 0, 0, 0] + I32Bytes(a.w) + I32Bytes(a.h) + [0, 0, 0, 0]
  }

  function DecodeAck(b: seq<byte>): AckMsg
    requires |b| >= ACK_SIZE && b[0] <= 2
  {
    AckMsg(ByteCode(b[0]), I32At(b, 4), I32At(b, 8))
  }

  lemma AckRoundTrip(a: AckMsg, rest: seq<byte>)
    requires a.Valid()
    ensures (Encode(AckRecord(a)) + rest)[0] <= 2
    ensures DecodeAck(Encode(AckRecord(a)) + rest) == a
  {
    var b := Encode(AckRecord(a)) + rest;
    var head: seq<byte> := [CodeByte(a.code), 0, 0, 0];
    var tail: seq<byte> := [0, 0, 0, 0] + rest;
    U32RoundTrip(if a.w < 0 then a.w + U32_LIMIT else a.w, head, I32Bytes(a.h) + tail);
    assert b == head + I32Bytes(a.w) + (I32Bytes(a.h) + tail);
    U32RoundTrip(if a.h < 0 then a.h + U32_LIMIT else a.h, head + I32Bytes(a.w), tail);
    assert b == (head + I32Bytes(a.w)) + I32Bytes(a.h) + tail;
  }

  function EncodeAll(rs: seq<Record>): (b: seq<byte>)
    requires ValidRecords(rs)
  {
    if rs == [] then [] else Encode(rs[0]) + EncodeAll(rs[1..])
  }
}
