/** The game's side with the globals of the GL compositor: the frame put aside,
    the two texture slots, and the descriptors behind them. Textures follow the
    value in Screen.dfy; every descriptor is held in exactly one entry. */
module GlConsumer {
  import opened Bytes
  import opened ShmDelta
  import opened DirtyRoi
  import opened ViewState
  import opened Descriptors
  import Scm
  import S = Screen

  /** g_tex, g_tex_w, g_tex_h, g_tex_img and g_tex_dmabuf_fd of one slot. */
  datatype GlSlot = GlSlot(tex: S.Texture, w: nat, h: nat, image: bool, fd: int)

  function SlotValue(s: GlSlot): S.Slot {
    S.Slot(s.tex, s.w, s.h, s.image, s.fd >= 0)
  }

  const HEADER_BYTES: nat := 28

  /** A frame header with the control messages that came with it. */
  datatype Received = Received(frame: Frame, cmsgs: seq<Scm.Cmsg>) {
    function Fds(): seq<int> {
      Scm.Brought(cmsgs)
    }
  }

  predicate Usable(r: Received) {
    1 <= |r.Fds()| <= 4 && r.frame.w != 0 && r.frame.h != 0
  }

  /** The frames of a batch that keep_last_frame does not throw away at sight. */
  function Frames(batch: seq<Received>): (fs: seq<Frame>) {
    if batch == [] then []
    else (if Usable(batch[0]) then [batch[0].frame] else []) + Frames(batch[1..])
  }

  /** What scm_recv_fds takes: sound control messages, some with descriptors. */
  predicate Complete(r: Received) {
    S.FrameValid(r.frame) && Scm.Sound(r.cmsgs) && Scm.Scanned(r.cmsgs, Scm.MAX_FDS).hasRights
  }

  predicate BatchValid(batch: seq<Received>) {
    forall k | 0 <= k < |batch| :: Complete(batch[k])
  }

  /** The kernel's promise: what arrives was not open here. */
  predicate Arrives(batch: seq<Received>, open: set<int>) {
    forall k | 0 <= k < |batch| :: Scm.KernelGives(batch[k].cmsgs, open)
      && forall j | 0 <= j < k :: Live(batch[j].Fds()) !! Live(batch[k].Fds())
  }

  /** The rest of the batch is not open here yet. */
  predicate Yet(batch: seq<Received>, k: nat, open: set<int>) {
    && (forall j | k <= j < |batch| :: Scm.KernelGives(batch[j].cmsgs, open))
    && (forall i, j | k <= i < j < |batch| :: Live(batch[i].Fds()) !! Live(batch[j].Fds()))
  }

  lemma YetMore(batch: seq<Received>, k: nat, open: set<int>, now: set<int>)
    requires k < |batch| && Yet(batch, k, open) && now <= open + Live(batch[k].Fds())
    ensures Yet(batch, k + 1, now)
  {
  }

  predicate Succeeds(outcome: Scm.Outcome, len: nat) {
    && outcome.Message? && outcome.n == len && len > 0 && !outcome.truncated
    && Scm.Scanned(outcome.cmsgs, Scm.MAX_FDS).hasRights
  }

  class GlConsumer {
    const table: FdTable
    const slots: array<GlSlot>
    const dmabufFd: array<int>
    var nfd: nat
    var header: Frame
    var texIdx: nat
    var cacheId: nat
    var hasFrame: bool
    var wasHidden: bool
    ghost var collided: bool
    /** What was uploaded into imported memory, first to last. */
    ghost var written: seq<S.Write>

    ghost predicate Shaped()
      reads this
    {
      slots.Length == 2 && dmabufFd.Length == 4 && texIdx < 2
    }

    /** All entries that may hold a descriptor. */
    ghost function Entries(): (e: seq<int>)
      requires slots.Length == 2
      reads slots, dmabufFd
    {
      dmabufFd[..] + [slots[0].fd, slots[1].fd]
    }

    ghost function Screen(): S.Screen
      requires slots.Length == 2
      reads this, slots
    {
      S.Screen([SlotValue(slots[0]), SlotValue(slots[1])], texIdx, hasFrame, cacheId, collided)
    }

    ghost predicate Valid()
      reads this, table, slots, dmabufFd
    {
      Shaped() && Screen().Valid() && Ledger(Entries(), table.open)
    }

    constructor ()
      ensures Valid() && fresh(table) && fresh(slots) && fresh(dmabufFd)
      ensures Screen() == S.BLANK && table.open == {}
    {
      table := new FdTable();
      slots := new GlSlot[2](_ => GlSlot(S.NoTexture, 0, 0, false, -1));
      dmabufFd := new int[4](_ => -1);
      nfd, header, texIdx, cacheId, hasFrame, wasHidden, collided := 0, DmaForwarded(0, 0), 0, 0, false, false, false;
      written := [];
    }

    /** idk_compositor_close_frame_fds on g_comp.dmabuf_fd. */
    method CloseFrameFds()
      requires Shaped() && Ledger(Entries(), table.open)
      modifies table, dmabufFd, this`nfd
      ensures Ledger(Entries(), table.open)
      ensures nfd == 0 && forall k | 0 <= k < 4 :: dmabufFd[k] < 0
    {
      CloseRange(table, dmabufFd, [slots[0].fd, slots[1].fd]);
      nfd := 0;
    }

    method DisconnectClient()
      requires Valid()
      modifies table, dmabufFd, this`nfd, this`hasFrame
      ensures Valid() && Screen() == old(Screen()).(hasFrame := false)
      ensures forall k | 0 <= k < 4 :: dmabufFd[k] < 0
    {
      CloseFrameFds();
      hasFrame := false;
    }

    ghost function TexFds(): seq<int>
      requires slots.Length == 2
      reads slots
    {
      [slots[0].fd, slots[1].fd]
    }

    /** The same while a received frame is in the receiver's local variables. */
    ghost predicate Holding(r: Received)
      reads this, table, slots, dmabufFd
    {
      Shaped() && Screen().Valid() && |r.Fds()| <= 4 && Ledger(r.Fds() + Entries(), table.open)
    }

    /** A frame after the first of a batch, or an unusable one: closed unseen. */
    method CloseUnseen(r: Received)
      requires Holding(r)
      modifies table
      ensures Valid() && table.open <= old(table.open)
    {
      CloseLocal(table, r.Fds(), Entries());
    }

    /** The first usable frame of a batch: what was put aside before is closed. */
    method KeepFrame(r: Received)
      requires Holding(r) && Usable(r)
      modifies this`header, this`nfd, this`hasFrame, table, dmabufFd
      ensures Valid() && header == r.frame && Screen() == old(Screen()).(hasFrame := true)
      ensures nfd == |r.Fds()| && dmabufFd[..nfd] == r.Fds()
      ensures table.open <= old(table.open)
    {
      LedgerSwap(r.Fds(), Entries(), table.open);
      assert Entries() + r.Fds() == dmabufFd[..] + (TexFds() + r.Fds());
      ghost var before := table.open;
      CloseRange(table, dmabufFd, TexFds() + r.Fds());
      LedgerSwap(TexFds(), r.Fds(), table.open);
      header, nfd, hasFrame := r.frame, |r.Fds()|, true;
      forall i | 0 <= i < nfd {
        dmabufFd[i] := r.Fds()[i];
      }
      ghost var pad := dmabufFd[..][nfd..];
      assert dmabufFd[..] == r.Fds() + pad;
      LedgerGap(r.Fds(), pad, TexFds(), table.open);
    }

    method KeepOne(r: Received, processed: bool) returns (now: bool)
      requires Holding(r) && forall i | 0 <= i < |r.Fds()| :: r.Fds()[i] >= 0
      modifies this`header, this`nfd, this`hasFrame, table, dmabufFd
      ensures Valid() && now == (processed || Usable(r))
      ensures if now && !processed then header == r.frame && dmabufFd[0] >= 0
              else header == old(header) && dmabufFd[0] == old(dmabufFd[0])
      ensures Screen() == if now && !processed then S.Keep(old(Screen()), false) else old(Screen())
      ensures table.open <= old(table.open)
    {
      if !Usable(r) || processed {
        CloseUnseen(r);
        return processed;
      }
      KeepFrame(r);
      assert dmabufFd[..nfd][0] == r.Fds()[0];
      return true;
    }

    /** One receive from recvmsg on: the descriptors of a message of sound control
        messages are all kept or all closed, received or not. */
    method ReceiveOne(outcome: Scm.Outcome, len: nat, frame: Frame, processed: bool) returns (rc: int, now: bool)
      requires Valid() && S.FrameValid(frame)
      requires outcome.Message? ==> Scm.KernelGives(outcome.cmsgs, table.open) && Scm.Sound(outcome.cmsgs)
      modifies this`header, this`nfd, this`hasFrame, table, dmabufFd
      ensures Valid() && (rc == 1 <==> Succeeds(outcome, len))
      ensures rc != 1 ==> now == processed && table.open == old(table.open) && Screen() == old(Screen())
      ensures rc == 1 ==> now == (processed || Usable(Received(frame, outcome.cmsgs)))
      ensures if now && !processed then header == frame && dmabufFd[0] >= 0
              else header == old(header) && dmabufFd[0] == old(dmabufFd[0])
      ensures Screen() == if now && !processed then S.Keep(old(Screen()), false) else old(Screen())
      ensures table.open <= old(table.open) + (if outcome.Message? then Live(Scm.Brought(outcome.cmsgs)) else {})
    {
      var fds, n := new int[4], 0;
      rc, n := Scm.RecvFds(table, outcome, len, fds);
      if outcome.Message? {
        Scm.SoundIsScanned(outcome.cmsgs, Scm.MAX_FDS);
        Scm.SoundLeaksNothing(outcome.cmsgs);
      }
      if rc != 1 {
        return rc, processed;
      }
      LedgerAdd(Entries(), old(table.open), fds[..n]);
      now := KeepOne(Received(frame, outcome.cmsgs), processed);
    }

    /** A frame that arrives is kept or closed. */
    method TakeOne(r: Received, processed: bool) returns (now: bool)
      requires Valid() && Complete(r) && Scm.KernelGives(r.cmsgs, table.open)
      modifies this`header, this`nfd, this`hasFrame, table, dmabufFd
      ensures Valid() && now == (processed || Usable(r))
      ensures if now && !processed then header == r.frame && dmabufFd[0] >= 0
              else header == old(header) && dmabufFd[0] == old(dmabufFd[0])
      ensures Screen() == if now && !processed then S.Keep(old(Screen()), false) else old(Screen())
      ensures table.open <= old(table.open) + Live(r.Fds())
    {
      Scm.SoundIsScanned(r.cmsgs, Scm.MAX_FDS);
      var rc;
      rc, now := ReceiveOne(Scm.Message(HEADER_BYTES, false, r.cmsgs), HEADER_BYTES, r.frame, processed);
    }

    /** tp_socket_drop_frame: received and closed. */
    method DropOne(r: Received)
      requires Valid() && Complete(r) && Scm.KernelGives(r.cmsgs, table.open)
      modifies table
      ensures Valid() && table.open == old(table.open)
    {
      Scm.SoundIsScanned(r.cmsgs, Scm.MAX_FDS);
      var fds := new int[4];
      var rc, n := Scm.RecvFds(table, Scm.Message(HEADER_BYTES, false, r.cmsgs), HEADER_BYTES, fds);
      LedgerAdd(Entries(), old(table.open), fds[..n]);
      CloseUnseen(r);
    }

    /** recv until nothing is left: the first usable frame is kept. */
    method KeepLastFrame(batch: seq<Received>, lost: bool) returns (processed: bool)
      requires Valid() && BatchValid(batch) && Arrives(batch, table.open)
      modifies this`header, this`nfd, this`hasFrame, table, dmabufFd
      ensures Valid() && (processed <==> Frames(batch) != [])
      ensures processed ==> header == Frames(batch)[0] && S.FrameValid(header)
      ensures processed && !lost ==> dmabufFd[0] >= 0
      ensures Screen() == if processed then S.Keep(old(Screen()), lost)
                          else if lost then old(Screen()).(hasFrame := false) else old(Screen())
      ensures lost ==> forall k | 0 <= k < 4 :: dmabufFd[k] < 0
    {
      processed := false;
      var k := 0;
      assert batch[..0] == [];
      while k < |batch|
        invariant k <= |batch| && Valid()
        invariant Yet(batch, k, table.open)
        invariant processed <==> Frames(batch[..k]) != []
        invariant processed ==> header == Frames(batch[..k])[0] && dmabufFd[0] >= 0
        invariant Screen() == if processed then S.Keep(old(Screen()), false) else old(Screen())
      {
        FramesSnoc(batch, k);
        ghost var before := table.open;
        processed := TakeOne(batch[k], processed);
        YetMore(batch, k, before, table.open);
        k := k + 1;
      }
      assert batch[..k] == batch;
      FramesValid(batch);
      if lost {
        DisconnectClient();
      }
    }

    /** drain_hidden: every queued frame is dropped and answered DISCARDED. */
    method DrainHidden(batch: seq<Received>, lost: bool) returns (discarded: nat)
      requires Valid() && BatchValid(batch) && Arrives(batch, table.open)
      modifies this`nfd, this`hasFrame, this`wasHidden, table, dmabufFd
      ensures Valid() && wasHidden && discarded == |batch|
      ensures Screen() == if lost then old(Screen()).(hasFrame := false) else old(Screen())
      ensures !lost ==> table.open == old(table.open)
    {
      discarded := 0;
      while discarded < |batch|
        invariant discarded <= |batch| && Valid() && table.open == old(table.open) && Screen() == old(Screen())
      {
        DropOne(batch[discarded]);
        discarded := discarded + 1;
      }
      if lost {
        DisconnectClient();
      }
      wasHidden := true;
    }

    /** idk_compositor_recv_frame on a connection: what it answers and asks for. */
    method RecvFrame(visible: bool, batch: seq<Received>, lost: bool)
      returns (processed: bool, discarded: nat, requests: nat)
      requires Valid() && BatchValid(batch) && Arrives(batch, table.open)
      modifies this`header, this`nfd, this`hasFrame, this`wasHidden, table, dmabufFd
      ensures Valid() && wasHidden == !visible
      ensures if visible then
                discarded == 0 && requests == (if old(wasHidden) then 2 else 1) && (processed <==> Frames(batch) != [])
              else discarded == |batch| && requests == 0 && !processed
      ensures processed ==> header == Frames(batch)[0] && S.FrameValid(header) && (lost <==> dmabufFd[0] < 0)
      ensures Screen() == if processed then S.Keep(old(Screen()), lost)
                          else if lost then old(Screen()).(hasFrame := false) else old(Screen())
    {
      processed, discarded, requests := false, 0, 0;
      if !visible {
        discarded := DrainHidden(batch, lost);
        return;
      }
      if wasHidden {
        wasHidden := false;
        requests := 1;
      }
      processed := KeepLastFrame(batch, lost);
      requests := requests + 1;
    }

    // ----- Textures -----

    /** release_dmabuf_backing. */
    method ReleaseBacking(i: nat)
      requires Shaped() && i < 2 && Ledger(Entries(), table.open)
      modifies table, slots
      ensures Ledger(Entries(), table.open)
      ensures slots[i] == old(slots[i]).(image := false, fd := slots[i].fd) && slots[i].fd < 0
      ensures slots[1 - i] == old(slots[1 - i])
    {
      slots[i] := slots[i].(image := false);
      if slots[i].fd >= 0 {
        ghost var before := Entries();
        LedgerClose(before, table.open, 4 + i);
        table.Close(slots[i].fd);
        slots[i] := slots[i].(fd := -1);
        assert Entries() == before[4 + i := -1];
      }
    }

    /** shm_to_texture. */
    method ShmToTexture(w: nat, h: nat, px: seq<byte>, mapOk: bool, ghost env: S.ShowEnv) returns (ok: bool)
      requires Valid() && w < INT_LIMIT && h < INT_LIMIT && |px| == w * h * 4 && mapOk == env.mapOk
      modifies this`texIdx, this`hasFrame, this`collided, this`written, table, slots
      ensures Valid()
      ensures var r := S.ShowFull(old(Screen()), w, h, px, mapOk);
              ok == r.1 && Screen() == r.0.(cacheId := old(cacheId))
      ensures written == old(written) + S.Uploads(old(Screen()), ShmFull(w, h, px), env)
    {
      if w == 0 || h == 0 || !mapOk {
        return false;
      }
      var back := 1 - texIdx;
      written := written + S.Into(Screen().slots[back], w, h, ShmFull(w, h, px));
      Replace(back, w, h, px);
      texIdx := back;
      hasFrame := true;
      collided := false;
      return true;
    }

    /** A backed texture is released and made anew, one of the right size reused. */
    method Replace(back: nat, w: nat, h: nat, px: seq<byte>)
      requires Valid() && back < 2
      modifies table, slots
      ensures Shaped() && Ledger(Entries(), table.open) && slots[1 - back] == old(slots[1 - back])
      ensures SlotValue(slots[back]) == S.Uploaded(old(SlotValue(slots[back])), w, h, px)
    {
      var wasDmabuf := slots[back].image || slots[back].fd >= 0;
      var anew := slots[back].tex == S.NoTexture || wasDmabuf || slots[back].w != w || slots[back].h != h;
      if wasDmabuf {
        ReleaseBacking(back);
      }
      Upload(back, anew, w, h, px);
    }

    /** glTexImage2D into a new texture, or glTexSubImage2D over an old one. */
    method Upload(back: nat, anew: bool, w: nat, h: nat, px: seq<byte>)
      requires Shaped() && back < 2 && Ledger(Entries(), table.open)
      modifies slots
      ensures Ledger(Entries(), table.open) && slots[1 - back] == old(slots[1 - back])
      ensures slots[back] == old(slots[back]).(w := w, h := h,
                tex := if anew || old(slots[back]).tex.Own? then S.Own(px) else old(slots[back]).tex)
    {
      var slot := slots[back];
      ghost var before := Entries();
      slots[back] := slot.(w := w, h := h, tex := if anew || slot.tex.Own? then S.Own(px) else slot.tex);
      assert Entries() == before;
    }

    /** shm_rect_to_texture. */
    method ShmRectToTexture(w: nat, h: nat, packet: seq<byte>, env: S.ShowEnv) returns (ok: bool)
      requires Valid() && w < INT_LIMIT && h < INT_LIMIT
      modifies this`hasFrame, this`collided, this`written, slots
      ensures Valid()
      ensures var r := S.ShowRect(old(Screen()), w, h, packet, env);
              ok == r.1 && Screen() == r.0.(cacheId := old(cacheId))
      ensures written == old(written) + S.Uploads(old(Screen()), ShmRect(w, h, packet), env)
    {
      if !env.mapOk || |packet| < HEADER_SIZE {
        return false;
      }
      var rect := HeaderAt(packet);
      if !Validate(Some(rect), w, h, |packet|) {
        return false;
      }
      var slot := slots[texIdx];
      if slot.tex == S.NoTexture || slot.image || slot.fd >= 0 || slot.w != w || slot.h != h {
        return false;
      }
      ok := WriteRect(w, h, packet, env);
    }

    /** The upload itself, once the packet and the texture are found to match. */
    method WriteRect(w: nat, h: nat, packet: seq<byte>, env: S.ShowEnv) returns (ok: bool)
      requires Valid() && w < INT_LIMIT && h < INT_LIMIT
      requires S.TakesRect(Screen().Current(), w, h, packet, env.mapOk)
      modifies this`hasFrame, this`collided, this`written, slots
      ensures Valid()
      ensures var r := S.ShowRect(old(Screen()), w, h, packet, env);
              ok == r.1 && Screen() == r.0.(cacheId := old(cacheId))
      ensures written == old(written) + S.Uploads(old(Screen()), ShmRect(w, h, packet), env)
    {
      if env.glError && !env.writtenAnyway {
        return false;
      }
      written := written + S.Into(Screen().Current(), w, h, ShmRect(w, h, packet));
      SubImage(w, h, packet);
      if env.glError {
        return false;
      }
      hasFrame := true;
      collided := false;
      return true;
    }

    method SubImage(w: nat, h: nat, packet: seq<byte>)
      requires Valid() && w < INT_LIMIT && h < INT_LIMIT && slots[texIdx].w == w && slots[texIdx].h == h
      modifies slots
      ensures Valid() && slots[1 - texIdx] == old(slots[1 - texIdx])
      ensures var s := old(Screen());
              Screen() == s.(slots := s.slots[texIdx := S.Patched(s.Current(), w, h, packet)])
    {
      CanvasFits(w, h);
      ghost var before, screen := Entries(), Screen();
      var slot := slots[texIdx];
      if slot.tex.Own? {
        var patched := ApplyPacket(slot.tex.px, w, h, packet);
        if patched.Some? {
          slots[texIdx] := slot.(tex := S.Own(patched.value));
        }
      }
      assert Entries() == before;
      assert Screen().slots == screen.slots[texIdx := S.Patched(screen.Current(), w, h, packet)];
    }

    /** gl_import_frame: the EGL path keeps the descriptor with the texture, the
        memory-object path and a failure close it. Either way the entry it was
        kept in holds nothing any more, and the caller clears it. */
    method GlImportFrame(w: nat, h: nat, bufId: nat, source: S.Source, how: S.ImportOutcome) returns (ok: bool)
      requires Valid() && w < INT_LIMIT && h < INT_LIMIT && (dmabufFd[0] < 0 ==> how == S.ImportFailed)
      modifies this`texIdx, this`cacheId, this`hasFrame, this`collided, table, slots
      ensures Shaped() && Ledger(Entries()[0 := -1], table.open)
      ensures (Screen(), ok) == S.Import(old(Screen()), w, h, bufId, source, how)
    {
      ghost var screen := Screen();
      var fd := dmabufFd[0];
      if how == S.ImportFailed {
        CloseEntry(0);
        return false;
      }
      var back := 1 - texIdx;
      ReleaseBacking(back);
      if how == S.ViaImage {
        ghost var before := Entries();
        LedgerMove(before, table.open, 0, 4 + back);
        slots[back] := GlSlot(S.Shared(source), w, h, true, fd);
        assert Entries()[0 := -1] == before[4 + back := before[0]][0 := -1];
      } else {
        CloseEntry(0);
        ghost var before := Entries()[0 := -1];
        ClearGap(before, 4 + back, table.open);
        slots[back] := GlSlot(S.Shared(source), w, h, false, -1);
        assert Entries()[0 := -1] == before[4 + back := -1];
      }
      texIdx := back;
      cacheId := bufId;
      hasFrame := true;
      collided := false;
      assert Screen().slots == S.Import(screen, w, h, bufId, source, how).0.slots;
      return true;
    }

    /** close of one entry that is about to be cleared. */
    method CloseEntry(k: nat)
      requires Shaped() && k < 4 && Ledger(Entries(), table.open)
      modifies table
      ensures Ledger(Entries()[k := -1], table.open)
    {
      if dmabufFd[k] >= 0 {
        LedgerClose(Entries(), table.open, k);
        table.Close(dmabufFd[k]);
      } else {
        ClearGap(Entries(), k, table.open);
      }
    }

    method ClearEntry(k: nat)
      requires Shaped() && k < 4 && Ledger(Entries()[k := -1], table.open)
      modifies dmabufFd
      ensures Ledger(Entries(), table.open)
    {
      ghost var before := Entries();
      dmabufFd[k] := -1;
      assert Entries() == before[k := -1];
    }

    /** The frame put aside is shown; what it is answered with. */
    method ShowKept(lost: bool, env: S.ShowEnv) returns (ok: bool)
      requires Valid() && S.FrameValid(header) && (lost <==> dmabufFd[0] < 0)
      modifies this`texIdx, this`cacheId, this`hasFrame, this`collided, this`written, table, slots, dmabufFd
      ensures Valid()
      ensures (Screen(), ok) == S.Show(old(Screen()), header, S.Bare(env, lost))
      ensures written == old(written) + S.Uploads(old(Screen()), header, S.Bare(env, lost))
    {
      var gl := S.Bare(env, lost);
      match header {
        case ShmFull(_, _, _) =>
          ok := ShowShm(gl);
        case ShmRect(_, _, _) =>
          ok := ShowShm(gl);
        case DmaStaged(w, h, bufId, buffer, serial) =>
          ok := ShowDma(w, h, bufId, S.StagedBo(buffer, serial), gl.imported);
        case DmaForwarded(w, h) =>
          ok := ShowDma(w, h, 0, S.PooledBo, gl.imported);
      }
      ClearEntry(0);
    }

    method ShowShm(gl: S.ShowEnv) returns (ok: bool)
      requires Valid() && S.FrameValid(header) && (header.ShmFull? || header.ShmRect?)
      modifies this`texIdx, this`cacheId, this`hasFrame, this`collided, this`written, table, slots
      ensures Shaped() && Ledger(Entries()[0 := -1], table.open)
      ensures (Screen(), ok) == S.Show(old(Screen()), header, gl)
      ensures written == old(written) + S.Uploads(old(Screen()), header, gl)
    {
      if header.ShmFull? {
        ok := ShmToTexture(header.w, header.h, header.px, gl.mapOk, gl);
      } else {
        ok := ShmRectToTexture(header.w, header.h, header.packet, gl);
      }
      Uncache(ok);
      CloseEntry(0);
    }

    method Uncache(ok: bool)
      requires Valid()
      modifies this`cacheId
      ensures Valid() && Screen() == old(Screen()).(cacheId := if ok then 0 else old(cacheId))
    {
      if ok {
        cacheId := 0;
      }
    }

    method ShowDma(w: nat, h: nat, bufId: nat, source: S.Source, how: S.ImportOutcome) returns (ok: bool)
      requires Valid() && w < INT_LIMIT && h < INT_LIMIT && (dmabufFd[0] < 0 ==> how == S.ImportFailed)
      modifies this`texIdx, this`cacheId, this`hasFrame, this`collided, table, slots
      ensures Shaped() && Ledger(Entries()[0 := -1], table.open)
      ensures (Screen(), ok) == S.ShowDma(old(Screen()), w, h, bufId, source, how)
    {
      if bufId != 0 && bufId == cacheId {
        CloseEntry(0);
        hasFrame := true;
        collided := Screen().Current().tex != S.Shared(source);
        return true;
      }
      ok := GlImportFrame(w, h, bufId, source, how);
    }

    /** A turn of the visible overlay: receive, show, answer. None if nothing came. */
    method Render(batch: seq<Received>, lost: bool, env: S.ShowEnv) returns (answer: Option<bool>)
      requires Valid() && BatchValid(batch) && Arrives(batch, table.open)
      modifies this, table, slots, dmabufFd
      ensures Valid()
      ensures var r := TurnOf(old(Screen()), batch, lost, env);
              Screen() == r.0 && answer == if Frames(batch) == [] then None else Some(r.1)
      ensures written == old(written) + S.TurnUploads(old(Screen()), Frames(batch), lost, env)
      ensures Frames(batch) != [] ==> forall k | 0 <= k < 4 :: dmabufFd[k] < 0
    {
      FramesValid(batch);
      var processed, discarded, requests := RecvFrame(true, batch, lost);
      if !processed {
        return None;
      }
      var ok := ShowKept(lost, env);
      CloseFrameFds();
      return Some(ok);
    }

    /** gl_draw_error_check, once the texture keeps failing or is none any more. */
    method DropTexture()
      requires Valid()
      modifies this`hasFrame, table, slots
      ensures Valid() && Screen() == S.Killed(old(Screen()))
    {
      ghost var screen, before := Screen(), Entries();
      slots[texIdx] := slots[texIdx].(tex := S.NoTexture);
      assert Entries() == before;
      ReleaseBacking(texIdx);
      hasFrame := false;
      assert Screen().slots == S.Killed(screen).slots;
    }

    /** Nothing is held after a shutdown. */
    method Shutdown()
      requires Valid()
      modifies this, table, slots, dmabufFd
      ensures Valid() && table.open == {}
      ensures !hasFrame && cacheId == 0 && slots[0].tex == S.NoTexture && slots[1].tex == S.NoTexture
    {
      CloseFrameFds();
      ghost var before := Entries();
      slots[0], slots[1] := slots[0].(tex := S.NoTexture), slots[1].(tex := S.NoTexture);
      assert Entries() == before;
      cacheId := 0;
      ReleaseBacking(0);
      ReleaseBacking(1);
      hasFrame := false;
      assert forall k | 0 <= k < 6 :: Entries()[k] < 0;
    }
  }

  lemma {:induction false} FramesValid(batch: seq<Received>)
    requires BatchValid(batch)
    ensures forall f | f in Frames(batch) :: S.FrameValid(f)
  {
    if batch != [] {
      FramesValid(batch[1..]);
    }
  }

  /** What a turn with this batch does to the screen. */
  function TurnOf(s: S.Screen, batch: seq<Received>, lost: bool, env: S.ShowEnv): (S.Screen, bool)
    requires s.Valid() && BatchValid(batch)
  {
    FramesValid(batch);
    S.Turn(s, Frames(batch), lost, env)
  }

  lemma {:induction false} FramesSnoc(batch: seq<Received>, k: nat)
    requires k < |batch|
    ensures Frames(batch[..k + 1]) == Frames(batch[..k]) + (if Usable(batch[k]) then [batch[k].frame] else [])
  {
    if k == 0 {
      assert batch[..1] == [batch[0]] && batch[..0] == [] && [batch[0]][1..] == [];
    } else {
      FramesSnoc(batch[1..], k - 1);
      assert batch[..k + 1][1..] == batch[1..][..k] && batch[..k][1..] == batch[1..][..k - 1];
    }
  }

  lemma ClearGap(entries: seq<int>, k: nat, open: set<int>)
    requires k < |entries| && entries[k] < 0 && Ledger(entries, open)
    ensures Ledger(entries[k := -1], open)
  {
    var a, s := entries[..k], entries[k + 1..];
    LedgerGap(a, [entries[k]], s, open);
    LedgerGap(a, [-1], s, open);
    assert a + [entries[k]] + s == entries && a + [-1] + s == entries[k := -1];
  }
}
