/** What the game shows: the two overlay textures and what each frame does to
    them, as a value. GL calls appear as their outcomes. */
module Screen {
  import opened Bytes
  import opened ShmDelta
  import opened DirtyRoi
  import opened GpuBuf
  import opened ViewState

  /** The buffer a dma-buf texture samples: a staging buffer object of the
      producer, or one of CEF's pool. */
  datatype Source = StagedBo(buffer: BufName, serial: nat) | PooledBo

  /** Texture storage: none, its own pixels, or somebody else's buffer. */
  datatype Texture = NoTexture | Own(px: seq<byte>) | Shared(source: Source)

  /** One texture slot. The EGL path backs a texture with an image and a
      descriptor, the memory-object path with neither. */
  datatype Slot = Slot(tex: Texture, w: nat, h: nat, image: bool, hasFd: bool)

  /** A texture over imported memory that later uploads take for its own. */
  predicate Foreign(s: Slot) {
    s.tex.Shared? && !s.image && !s.hasFd
  }

  const EMPTY_SLOT: Slot := Slot(NoTexture, 0, 0, false, false)

  /** collided, for the proof: the frame accepted last repeated the cached
      identifier, but the texture shown samples a different buffer. */
  datatype Screen = Screen(slots: seq<Slot>, idx: nat, hasFrame: bool, cacheId: nat, collided: bool) {
    predicate Valid() {
      |slots| == 2 && idx < 2 && SlotValid(slots[0]) && SlotValid(slots[1])
    }

    function Current(): Slot
      requires Valid()
    {
      slots[idx]
    }
  }

  predicate SlotValid(s: Slot) {
    && s.w < INT_LIMIT && s.h < INT_LIMIT
    && (s.image || s.hasFd ==> s.tex.Shared?)
    && (s.tex.Own? ==> s.w > 0 && |s.tex.px| == s.w * s.h * 4)
  }

  datatype ImportOutcome = ViaImage | ViaMemoryObject | ImportFailed

  /** What the game's side answers: does the memory file map, does glGetError
      report something after a rectangle upload and was it written all the same,
      how the import of a dma-buf ends; and what an upload leaves in imported
      memory that was announced with a wrong size. */
  datatype ShowEnv = ShowEnv(mapOk: bool, glError: bool, writtenAnyway: bool, imported: ImportOutcome,
                             smear: seq<byte>)

  // ----- What a frame writes into imported memory -----

  /** A frame whose pixels are uploaded into the buffer behind a texture. */
  datatype Write = Write(source: Source, frame: Frame)

  function Into(slot: Slot, w: nat, h: nat, f: Frame): seq<Write> {
    if Foreign(slot) && slot.w == w && slot.h == h then [Write(slot.tex.source, f)] else []
  }

  function Uploads(s: Screen, f: Frame, env: ShowEnv): (ws: seq<Write>)
    requires s.Valid()
    ensures |ws| <= 1 && forall k | 0 <= k < |ws| :: ws[k].frame == f && (f.ShmFull? || f.ShmRect?)
  {
    match f
    case ShmFull(w, h, _) => if w == 0 || h == 0 || !env.mapOk then [] else Into(s.slots[1 - s.idx], w, h, f)
    case ShmRect(w, h, packet) =>
      if TakesRect(s.Current(), w, h, packet, env.mapOk) && (!env.glError || env.writtenAnyway)
      then Into(s.Current(), w, h, f) else []
    case _ => []
  }

  // ----- What a frame does to the textures -----

  /** The slot after a full upload: a texture of imported memory and the right
      size is kept, and its memory written. */
  function Uploaded(was: Slot, w: nat, h: nat, px: seq<byte>): Slot {
    if Foreign(was) && was.w == w && was.h == h then was else Slot(Own(px), w, h, false, false)
  }

  /** A full shared-memory frame goes to the back slot, which then is shown. */
  function ShowFull(s: Screen, w: nat, h: nat, px: seq<byte>, mapOk: bool): (r: (Screen, bool))
    requires s.Valid() && w < INT_LIMIT && h < INT_LIMIT && |px| == w * h * 4
    ensures r.0.Valid()
  {
    if w == 0 || h == 0 || !mapOk then (s, false)
    else
      var back := 1 - s.idx;
      var slots := s.slots[back := Uploaded(s.slots[back], w, h, px)];
      (s.(slots := slots, idx := back, hasFrame := true, cacheId := 0, collided := false), true)
  }

  /** Can a rectangle packet be applied to the slot? */
  predicate TakesRect(slot: Slot, w: nat, h: nat, packet: seq<byte>, mapOk: bool) {
    && mapOk && |packet| >= HEADER_SIZE && Validate(Some(HeaderAt(packet)), w, h, |packet|)
    && slot.tex != NoTexture && !slot.image && !slot.hasFd && slot.w == w && slot.h == h
  }

  function Patched(slot: Slot, w: nat, h: nat, packet: seq<byte>): (r: Slot)
    requires SlotValid(slot)
    ensures SlotValid(r)
  {
    CanvasFits(slot.w, slot.h);
    if slot.tex.Own? && ApplyPacket(slot.tex.px, slot.w, slot.h, packet).Some?
    then slot.(tex := Own(ApplyPacket(slot.tex.px, slot.w, slot.h, packet).value)) else slot
  }

  /** A rectangle is written into the slot shown now. */
  function ShowRect(s: Screen, w: nat, h: nat, packet: seq<byte>, env: ShowEnv): (r: (Screen, bool))
    requires s.Valid()
    ensures r.0.Valid()
  {
    if !TakesRect(s.Current(), w, h, packet, env.mapOk) then (s, false)
    else
      var t := s.(slots := s.slots[s.idx := Patched(s.Current(), w, h, packet)]);
      if !env.glError then (t.(hasFrame := true, cacheId := 0, collided := false), true)
      else (if env.writtenAnyway then t else s, false)
  }

  function Import(s: Screen, w: nat, h: nat, bufId: nat, source: Source, how: ImportOutcome): (r: (Screen, bool))
    requires s.Valid() && w < INT_LIMIT && h < INT_LIMIT
    ensures r.0.Valid()
  {
    if how == ImportFailed then (s, false)
    else
      var slot := Slot(Shared(source), w, h, how == ViaImage, how == ViaImage);
      (s.(slots := s.slots[1 - s.idx := slot], idx := 1 - s.idx, hasFrame := true, cacheId := bufId, collided := false),
       true)
  }

  /** A frame that names the identifier imported last keeps the texture. */
  function ShowDma(s: Screen, w: nat, h: nat, bufId: nat, source: Source, how: ImportOutcome): (r: (Screen, bool))
    requires s.Valid() && w < INT_LIMIT && h < INT_LIMIT
    ensures r.0.Valid()
  {
    if bufId != 0 && bufId == s.cacheId then
      (s.(hasFrame := true, collided := s.Current().tex != Shared(source)), true)
    else Import(s, w, h, bufId, source, how)
  }

  /** A staged frame carries the identifier of the buffer object it names. */
  predicate FrameValid(f: Frame) {
    && f.w < INT_LIMIT && f.h < INT_LIMIT && (f.ShmFull? ==> |f.px| == f.w * f.h * 4)
    && (f.DmaStaged? ==> f.bufId == Identifier(f.serial))
  }

  /** One received frame, and whether it is accepted. */
  function Show(s: Screen, f: Frame, env: ShowEnv): (r: (Screen, bool))
    requires s.Valid() && FrameValid(f)
    ensures r.0.Valid()
  {
    match f
    case ShmFull(w, h, px) => ShowFull(s, w, h, px, env.mapOk)
    case ShmRect(w, h, packet) => ShowRect(s, w, h, packet, env)
    case DmaStaged(w, h, bufId, buffer, serial) => ShowDma(s, w, h, bufId, StagedBo(buffer, serial), env.imported)
    case DmaForwarded(w, h) => ShowDma(s, w, h, 0, PooledBo, env.imported)
  }

  /** The frame is put aside to be shown; then the connection may turn out to be
      lost, which takes its descriptors away again. */
  function Keep(s: Screen, lost: bool): (r: Screen)
    requires s.Valid()
    ensures r.Valid()
  {
    s.(hasFrame := !lost)
  }

  /** Without descriptors nothing maps and nothing imports. */
  function Bare(env: ShowEnv, lost: bool): ShowEnv {
    if lost then env.(mapOk := false, imported := ImportFailed) else env
  }

  /** A turn of the game's frame: the first frame of the batch, if any, is shown;
      the rest are closed unseen. */
  function Turn(s: Screen, batch: seq<Frame>, lost: bool, env: ShowEnv): (r: (Screen, bool))
    requires s.Valid() && forall f | f in batch :: FrameValid(f)
    ensures r.0.Valid()
  {
    if batch != [] then Show(Keep(s, lost), batch[0], Bare(env, lost))
    else (if lost then s.(hasFrame := false) else s, false)
  }

  function TurnUploads(s: Screen, batch: seq<Frame>, lost: bool, env: ShowEnv): (ws: seq<Write>)
    requires s.Valid()
    ensures |ws| <= 1 && (lost ==> ws == [])
    ensures forall k | 0 <= k < |ws| ::
              batch != [] && ws[k].frame == batch[0] && (ws[k].frame.ShmFull? || ws[k].frame.ShmRect?)
  {
    if batch != [] then Uploads(Keep(s, lost), batch[0], Bare(env, lost)) else []
  }

  /** The texture shown keeps failing and is deleted. */
  function Killed(s: Screen): (r: Screen)
    requires s.Valid()
    ensures r.Valid()
  {
    s.(slots := s.slots[s.idx := s.Current().(tex := NoTexture, image := false, hasFd := false)], hasFrame := false)
  }

  const BLANK: Screen := Screen([EMPTY_SLOT, EMPTY_SLOT], 0, false, 0, false)
}
