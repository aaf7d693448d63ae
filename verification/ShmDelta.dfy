/** The rectangle packet of the shared-memory transport: validation, packing,
    and what the consumer does with a packet. */
module ShmDelta {
  import opened Bytes
  import opened Raster
  import opened Memory

  const DELTA_MAGIC: nat := 0x31524449
  const HEADER_SIZE: nat := 20

  datatype Delta = Delta(magic: nat, x: nat, y: nat, width: nat, height: nat) {
    /** Every field is a 32-bit unsigned integer. */
    predicate Fields32() {
      magic < U32_LIMIT && x < U32_LIMIT && y < U32_LIMIT && width < U32_LIMIT && height < U32_LIMIT
    }

    function Area(): Rect {
      Rect(x, y, width, height)
    }

    /** The packet length as 64-bit arithmetic computes it. */
    function Length(): nat {
      U64(TrueLength())
    }

    /** The packet length without any wrap-around. */
    function TrueLength(): nat {
      width * height * 4 + HEADER_SIZE
    }
  }

  predicate Validate(r: Option<Delta>, w: nat, h: nat, mappedSize: nat) {
    if r.None? then false
    else
      var d := r.value;
      if d.magic != DELTA_MAGIC || w == 0 || h == 0 || d.width == 0 || d.height == 0 || d.x >= w || d.y >= h
         || d.width > w - d.x || d.height > h - d.y
      then false
      else d.Length() == mappedSize
  }

  /** On canvases whose whole packet fits 64 bits, validation accepts exactly
      the non-empty rectangles inside the canvas with the right packet size. */
  lemma ValidateIsExact(d: Delta, w: nat, h: nat, mappedSize: nat)
    requires w * h * 4 + HEADER_SIZE < U64_LIMIT
    ensures Validate(Some(d), w, h, mappedSize)
            <==> d.magic == DELTA_MAGIC && Inside(d.Area(), w, h) && mappedSize == d.TrueLength()
  {
    if Inside(d.Area(), w, h) {
      InsideArea(d.Area(), w, h);
    }
  }

  /** With or without that bound, what is accepted is a rectangle inside. */
  lemma ValidateInside(d: Delta, w: nat, h: nat, mappedSize: nat)
    requires Validate(Some(d), w, h, mappedSize)
    ensures d.magic == DELTA_MAGIC && Inside(d.Area(), w, h)
  {
  }

  /** Without that bound the 64-bit length wraps: for a rectangle inside the
      canvas, the size test means what it says if and only if the true packet
      length fits 64 bits. */
  lemma ValidateSizeMeaning(d: Delta, w: nat, h: nat)
    requires d.Fields32() && d.magic == DELTA_MAGIC && Inside(d.Area(), w, h)
    ensures (forall m: nat | m < U64_LIMIT :: Validate(Some(d), w, h, m) <==> m == d.TrueLength())
            <==> d.TrueLength() < U64_LIMIT
  {
    if d.TrueLength() >= U64_LIMIT {
      var m := U64(d.TrueLength());
      assert Validate(Some(d), w, h, m);
    }
  }

  /** A rectangle of 2^31 by 2^31 pixels passes with a bare 20-byte packet. */
  lemma ValidateWraps()
    ensures var d := Delta(DELTA_MAGIC, 0, 0, 0x8000_0000, 0x8000_0000);
            && d.Fields32() && Inside(d.Area(), 0x8000_0000, 0x8000_0000)
            && Validate(Some(d), 0x8000_0000, 0x8000_0000, HEADER_SIZE)
            && d.TrueLength() != HEADER_SIZE
  {
    assert 0x8000_0000 * 0x8000_0000 * 4 == U64_LIMIT;
    assert (U64_LIMIT + HEADER_SIZE) % U64_LIMIT == HEADER_SIZE;
  }

  // ----- Packet contents -----

  function HeaderBytes(d: Delta): (b: seq<byte>)
    requires d.Fields32()
    ensures |b| == HEADER_SIZE
  {
    U32Bytes(d.magic) + U32Bytes(d.x) + U32Bytes(d.y) + U32Bytes(d.width) + U32Bytes(d.height)
  }

  function HeaderAt(packet: seq<byte>): (d: Delta)
    requires |packet| >= HEADER_SIZE
    ensures d.Fields32()
  {
    Delta(U32At(packet, 0), U32At(packet, 4), U32At(packet, 8), U32At(packet, 12), U32At(packet, 16))
  }

  lemma HeaderRoundTrip(d: Delta, body: seq<byte>)
    requires d.Fields32()
    ensures HeaderAt(HeaderBytes(d) + body) == d
  {
    var p := HeaderBytes(d) + body;
    var m, x, y, w, h := U32Bytes(d.magic), U32Bytes(d.x), U32Bytes(d.y), U32Bytes(d.width), U32Bytes(d.height);
    U32RoundTrip(d.magic, [], x + y + w + h + body);
    assert p == [] + m + (x + y + w + h + body);
    U32RoundTrip(d.x, m, y + w + h + body);
    assert p == m + x + (y + w + h + body);
    U32RoundTrip(d.y, m + x, w + h + body);
    assert p == (m + x) + y + (w + h + body);
    U32RoundTrip(d.width, m + x + y, h + body);
    assert p == (m + x + y) + w + (h + body);
    U32RoundTrip(d.height, m + x + y + w, body);
    assert p == (m + x + y + w) + h + body;
  }

  /** The rectangle of source, tightly packed row after row. */
  function Body(source: seq<byte>, w: nat, h: nat, r: Rect): (b: seq<byte>)
    requires Inside(r, w, h) && |source| == w * h * 4
    ensures |b| == r.width * r.height * 4
  {
    seq(r.width * r.height * 4, k requires 0 <= k < r.width * r.height * 4 =>
      BodySource(w, h, r, k);
      source[Addr(w, r.x + Col(r.width, k), r.y + Row(r.width, k)) + k % 4])
  }

  /** Packed byte k comes from inside the rectangle, inside the canvas. */
  lemma BodySource(w: nat, h: nat, r: Rect, k: nat)
    requires Inside(r, w, h) && k < r.width * r.height * 4
    ensures Addr(w, r.x + Col(r.width, k), r.y + Row(r.width, k)) + k % 4 < w * h * 4
  {
    CoordsAddr(r.width, r.height, k);
    AddrBound(w, h, r.x + Col(r.width, k), r.y + Row(r.width, k));
  }

  function Packet(source: seq<byte>, w: nat, h: nat, d: Delta): (p: seq<byte>)
    requires d.Fields32() && Inside(d.Area(), w, h) && |source| == w * h * 4
    ensures |p| == d.TrueLength()
  {
    HeaderBytes(d) + Body(source, w, h, d.Area())
  }

  /** Index into the packed body of the canvas byte i. */
  function BodyIndex(w: nat, r: Rect, i: nat): nat
    requires w > 0 && Covers(r, w, i)
  {
    Addr(r.width, Col(w, i) - r.x, Row(w, i) - r.y) + i % 4
  }

  lemma BodyIndexBound(w: nat, r: Rect, i: nat)
    requires w > 0 && Covers(r, w, i)
    ensures BodyIndex(w, r, i) < r.width * r.height * 4
  {
    AddrBound(r.width, r.height, Col(w, i) - r.x, Row(w, i) - r.y);
  }

  /** glTexSubImage2D from a tightly packed buffer, as a rectangle write
      (OpenGL 4.6 core, section 8.6). */
  function TexSubImage(canvas: seq<byte>, w: nat, r: Rect, pixels: seq<byte>): (c: seq<byte>)
    requires w > 0 && |pixels| == r.width * r.height * 4
    ensures |c| == |canvas|
  {
    seq(|canvas|, i requires 0 <= i < |canvas| =>
      if Covers(r, w, i) then BodyIndexBound(w, r, i); pixels[BodyIndex(w, r, i)] else canvas[i])
  }

  /** The consumer's reading of a mapped packet: None when it rejects it. */
  function ApplyPacket(canvas: seq<byte>, w: nat, h: nat, packet: seq<byte>): (c: Option<seq<byte>>)
    requires w * h * 4 + HEADER_SIZE < U64_LIMIT
    ensures c.Some? ==> |c.value| == |canvas|
  {
    if |packet| < HEADER_SIZE then None
    else
      var d := HeaderAt(packet);
      if !Validate(Some(d), w, h, |packet|) then None
      else
        ValidateIsExact(d, w, h, |packet|);
        Some(TexSubImage(canvas, w, d.Area(), packet[HEADER_SIZE..]))
  }

  lemma BodyAtIndex(w: nat, h: nat, r: Rect, source: seq<byte>, i: nat)
    requires Inside(r, w, h) && |source| == w * h * 4
    requires i < w * h * 4 && Covers(r, w, i)
    ensures BodyIndex(w, r, i) < r.width * r.height * 4
    ensures Body(source, w, h, r)[BodyIndex(w, r, i)] == source[i]
  {
    BodyIndexBound(w, r, i);
    CoordsAddr(w, h, i);
    AddrCoords(r.width, Col(w, i) - r.x, Row(w, i) - r.y, i % 4);
  }

  /** Packing on one side and uploading on the other moves exactly the
      rectangle: the consumer's canvas becomes the patched canvas. */
  lemma PacketRoundTrip(canvas: seq<byte>, source: seq<byte>, w: nat, h: nat, d: Delta)
    requires |canvas| == |source| == w * h * 4
    requires w * h * 4 + HEADER_SIZE < U64_LIMIT
    requires d.Fields32() && d.magic == DELTA_MAGIC && Inside(d.Area(), w, h)
    ensures ApplyPacket(canvas, w, h, Packet(source, w, h, d)) == Some(Patch(canvas, w, d.Area(), source))
  {
    var r, body := d.Area(), Body(source, w, h, d.Area());
    var packet := Packet(source, w, h, d);
    HeaderRoundTrip(d, body);
    ValidateIsExact(d, w, h, |packet|);
    assert packet[HEADER_SIZE..] == body;
    forall i | 0 <= i < |canvas|
      ensures TexSubImage(canvas, w, r, body)[i] == Patch(canvas, w, r, source)[i]
    {
      if Covers(r, w, i) {
        BodyAtIndex(w, h, r, source, i);
      }
    }
    assert TexSubImage(canvas, w, r, body) == Patch(canvas, w, r, source);
  }

  // ----- The producer's packing loop -----

  /** Rows are contiguous on both sides, so row copies are byte copies. */
  lemma RowOfBody(w: nat, h: nat, r: Rect, row: nat, j: nat)
    requires Inside(r, w, h) && row < r.height && j < r.width * 4
    ensures row * r.width * 4 + j < r.width * r.height * 4
    ensures Col(r.width, row * r.width * 4 + j) == j / 4
    ensures Row(r.width, row * r.width * 4 + j) == row
    ensures Addr(w, r.x, r.y + row) + j == Addr(w, r.x + j / 4, r.y + row) + j % 4
    ensures (row * r.width * 4 + j) % 4 == j % 4
  {
    AddrCoords(r.width, j / 4, row, j % 4);
    AddrBound(r.width, r.height, j / 4, row);
    assert Addr(r.width, j / 4, row) + j % 4 == row * r.width * 4 + j;
  }

  lemma RowBounds(w: nat, h: nat, r: Rect, row: nat)
    requires Inside(r, w, h) && row < r.height
    ensures Addr(w, r.x, r.y + row) + r.width * 4 <= w * h * 4
    ensures row * r.width * 4 + r.width * 4 <= r.width * r.height * 4
  {
    AddrBound(w, h, r.x + r.width - 1, r.y + row);
    assert (row + 1) * r.width <= r.height * r.width;
  }

  /** Row number row of the packet is a contiguous piece of one canvas row. */
  predicate RowInPacket(packet: seq<byte>, source: seq<byte>, w: nat, d: Delta, row: nat) {
    var to, from, n := HEADER_SIZE + row * d.width * 4, Addr(w, d.x, d.y + row), d.width * 4;
    to + n <= |packet| && from + n <= |source| && packet[to..to + n] == source[from..from + n]
  }

  lemma BodyByte(source: seq<byte>, w: nat, h: nat, d: Delta, row: nat, j: nat, at: nat, from: nat)
    requires d.Fields32() && Inside(d.Area(), w, h) && |source| == w * h * 4 && row < d.height && j < d.width * 4
    requires at == row * d.width * 4 + j < |Body(source, w, h, d.Area())|
    requires from == Addr(w, d.x, d.y + row) + j < |source|
    ensures Body(source, w, h, d.Area())[at] == source[from]
  {
    RowOfBody(w, h, d.Area(), row, j);
  }

  lemma PacketRow(source: seq<byte>, w: nat, h: nat, d: Delta, row: nat)
    requires d.Fields32() && Inside(d.Area(), w, h) && |source| == w * h * 4 && row < d.height
    ensures RowInPacket(Packet(source, w, h, d), source, w, d, row)
  {
    var r, body := d.Area(), Body(source, w, h, d.Area());
    RowBounds(w, h, r, row);
    var start, from, n := row * d.width * 4, Addr(w, d.x, d.y + row), d.width * 4;
    var rest := body[start..start + n];
    forall j | 0 <= j < n ensures rest[j] == source[from + j] {
      BodyByte(source, w, h, d, row, j, start + j, from + j);
      hide Body;
    }
    hide Body, RowInPacket;
    assert rest == source[from..from + n];
    assert Packet(source, w, h, d)[HEADER_SIZE + start..HEADER_SIZE + start + n] == rest;
  }

  lemma PacketRows(source: seq<byte>, w: nat, h: nat, d: Delta)
    requires d.Fields32() && Inside(d.Area(), w, h) && |source| == w * h * 4
    ensures forall row | 0 <= row < d.height :: RowInPacket(Packet(source, w, h, d), source, w, d, row)
  {
    forall row | 0 <= row < d.height ensures RowInPacket(Packet(source, w, h, d), source, w, d, row) {
      PacketRow(source, w, h, d, row);
    }
  }

  /** Packs one canvas rectangle into dst; every copy stays in bounds. */
  method Pack(dst: array?<byte>, capacity: nat, source: Option<seq<byte>>, w: nat, h: nat, roi: Option<Delta>)
    returns (ok: bool)
    requires roi.Some? ==> roi.value.Fields32()
    requires w * h * 4 + HEADER_SIZE < U64_LIMIT
    requires dst != null ==> dst.Length == capacity
    requires source.Some? ==> |source.value| == w * h * 4
    modifies dst
    ensures ok <==> dst != null && source.Some? && roi.Some? && roi.value.magic == DELTA_MAGIC
                    && Inside(roi.value.Area(), w, h) && capacity == roi.value.TrueLength()
    ensures ok ==> dst[..] == Packet(source.value, w, h, roi.value)
    ensures !ok && dst != null ==> dst[..] == old(dst[..])
  {
    if roi.Some? {
      ValidateIsExact(roi.value, w, h, capacity);
    }
    if dst == null || source.None? || !Validate(roi, w, h, capacity) {
      return false;
    }
    ghost var packet := Packet(source.value, w, h, roi.value);
    PacketRows(source.value, w, h, roi.value);
    PackRows(dst, source.value, w, roi.value, packet);
    return true;
  }

  lemma PrefixGrows(full: seq<byte>, before: seq<byte>, after: seq<byte>, at: nat, n: nat)
    requires at + n <= |full| == |before| && before[..at] == full[..at]
    requires after == before[..at] + full[at..at + n] + before[at + n..]
    ensures after[..at + n] == full[..at + n]
  {
    assert full[..at + n] == full[..at] + full[at..at + n];
  }

  /** The header store and the row loop. */
  method PackRows(dst: array<byte>, source: seq<byte>, w: nat, d: Delta, ghost packet: seq<byte>)
    requires d.Fields32()
    requires HEADER_SIZE <= dst.Length == |packet| == d.TrueLength()
    requires packet[..HEADER_SIZE] == HeaderBytes(d)
    requires forall row | 0 <= row < d.height :: RowInPacket(packet, source, w, d, row)
    modifies dst
    ensures dst[..] == packet
  {
    StoreHeader(dst, d);
    var row := 0;
    ghost var done := HEADER_SIZE;
    while row < d.height
      invariant row <= d.height
      invariant done == HEADER_SIZE + row * d.width * 4
      invariant HEADER_SIZE <= done <= |packet|
      invariant dst[..done] == packet[..done]
    {
      var to: int := HEADER_SIZE + row * d.width * 4;
      assert to == done;
      var from, n := Addr(w, d.x, d.y + row), d.width * 4;
      assert RowInPacket(packet, source, w, d, row);
      ghost var before := dst[..];
      Memcpy(dst, to, source, from, n);
      PrefixGrows(packet, before, dst[..], done, n);
      assert (row + 1) * d.width * 4 == row * d.width * 4 + d.width * 4;
      done := done + n;
      row := row + 1;
    }
    assert dst[..] == dst[..done];
  }

  method StoreHeader(dst: array<byte>, d: Delta)
    requires d.Fields32() && dst.Length >= HEADER_SIZE
    modifies dst
    ensures dst[..HEADER_SIZE] == HeaderBytes(d)
  {
    var header := HeaderBytes(d);
    forall k | 0 <= k < HEADER_SIZE {
      dst[k] := header[k];
    }
  }
}
