/** The staging buffer object. GL and GBM calls appear as their outcomes and as
    rectangle writes on the buffer's image. */
module GpuBuf {
  import opened Bytes
  import opened ShmFormat
  import opened DirtyRoi
  import opened Staging

  /** Who wrote the pixels of a buffer object last, for the proof: the view by a
      blit, the game by a full upload into a texture that shares the memory, or
      the game by a rectangle over what the view had staged. */
  datatype Author = ByView | ByGame | ByBoth

  /** A staging buffer as a value. The serial number tells buffer objects apart
      for the proof; the 16-bit generation is what the wire carries. */
  datatype Staged = Staged(present: bool, w: nat, h: nat, initialized: bool, partial: bool,
                           generation: nat, serial: nat, image: seq<byte>, author: Author)
  {
    predicate Valid() {
      && (present ==> w > 0 && h > 0 && |image| == w * h * 4)
      && (initialized ==> present)
      && generation == Identifier(serial)
    }
  }

  const FRESH: Staged := Staged(false, 0, 0, false, false, 1, 0, [], ByView)

  /** The identifier of the buffer object with this serial number: the counter
      starts at one, skips zero and so repeats after 65535 objects. */
  function Identifier(serial: nat): (g: nat)
    ensures 0 < g < U16_LIMIT
  {
    serial % (U16_LIMIT - 1) + 1
  }

  lemma IdentifierSteps(serial: nat)
    ensures NextGeneration(Identifier(serial)) == Identifier(serial + 1)
  {
  }

  /** Two objects share an identifier exactly if their numbers are congruent. */
  lemma IdentifierRepeats(m: nat, n: nat)
    ensures Identifier(m) == Identifier(n) <==> m % (U16_LIMIT - 1) == n % (U16_LIMIT - 1)
  {
  }

  datatype BoOutcome = Created | CreateFailed | BindFailed

  /** What the driver answers during one BlitAndExport: is the context current,
      how buffer creation ends if it is needed, does the CEF buffer import, do
      the blits succeed; and the bytes of memory nobody has written. */
  datatype BlitEnv = BlitEnv(current: bool, bo: BoOutcome, imported: bool, blitted: bool, garbage: seq<byte>)

  function Unwritten(garbage: seq<byte>, n: nat): (u: seq<byte>)
    ensures |u| == n
  {
    if |garbage| == n then garbage else seq(n, i => 0)
  }

  /** The identifier skips zero, which means uncached on the wire. */
  function NextGeneration(g: nat): (n: nat)
    requires g < U16_LIMIT
    ensures 0 < n < U16_LIMIT
  {
    var from := if g == 0 then 1 else g;
    if from + 1 == U16_LIMIT then 1 else from + 1
  }

  function Destroyed(s: Staged): Staged {
    s.(present := false, w := 0, h := 0, initialized := false, partial := false, image := [], author := ByView)
  }

  /** The buffer after EnsureBo, and whether it is usable. */
  function EnsureBo(s: Staged, w: nat, h: nat, env: BlitEnv): (r: (Staged, bool))
    requires s.Valid() && w > 0 && h > 0
    ensures r.0.Valid() && (r.1 ==> r.0.present && r.0.w == w && r.0.h == h)
    ensures r.0 == s || (!r.0.initialized && r.0.author == ByView)
  {
    IdentifierSteps(s.serial);
    if s.present && s.w == w && s.h == h then (s, true)
    else
      match env.bo
      case CreateFailed => (Destroyed(s), false)
      case BindFailed => (Destroyed(s).(generation := NextGeneration(s.generation), serial := s.serial + 1), false)
      case Created =>
        (Staged(true, w, h, false, false, NextGeneration(s.generation), s.serial + 1,
                Unwritten(env.garbage, w * h * 4), ByView), true)
  }

  /** Dirty rectangles only: the buffer is initialised, the caller allows it and
      every one of 1 to 32 rectangles leaves something after clipping. */
  predicate BlitsPartially(s: Staged, dirty: seq<DirtyRect>, w: nat, h: nat, full: bool) {
    s.initialized && !full && 0 < |dirty| <= MAX_DIRTY
        && forall k | 0 <= k < |dirty| :: DirtyBlitRect(dirty[k], w, h).Some?
  }

  /** A blit that failed half way. */
  function Spoiled(s: Staged, garbage: seq<byte>, n: nat): Staged {
    s.(initialized := false, image := Unwritten(garbage, n), author := ByView)
  }

  function BlitAndExport(s: Staged, planes: int, texture: seq<byte>, w: nat, h: nat, dirty: seq<DirtyRect>,
                         full: bool, env: BlitEnv): (r: (Staged, bool))
    requires s.Valid() && w > 0 && h > 0 && |texture| == w * h * 4
    ensures r.0.Valid()
    ensures r.1 ==> r.0.present && r.0.initialized && r.0.w == w && r.0.h == h
    ensures r.0 == s || r.0.author == ByView
  {
    if planes < 1 || !env.current then (s, false)
    else
      var (b, usable) := EnsureBo(s, w, h, env);
      if !usable || !env.imported then (b, false)
      else if !env.blitted then (Spoiled(b, env.garbage, w * h * 4), false)
      else
        var partial := BlitsPartially(b, dirty, w, h, full);
        var image := if partial then BlitAll(b.image, texture, w, h, dirty)
                     else Blit(b.image, texture, w, h, FullBlitRect(w, h));
        (b.(initialized := true, partial := partial, image := image, author := ByView), true)
  }

  /** A blit into the same object leaves its size. */
  lemma ExportKeepsSize(s: Staged, planes: int, texture: seq<byte>, w: nat, h: nat, dirty: seq<DirtyRect>,
                        full: bool, env: BlitEnv)
    requires s.Valid() && w > 0 && h > 0 && |texture| == w * h * 4
    ensures var o := BlitAndExport(s, planes, texture, w, h, dirty, full, env).0;
            s.present && o.present && o.serial == s.serial ==> o.w == s.w && o.h == s.h
  {
  }

  /** A successful export holds the new frame exactly if the blit was a full one
      or the old image agreed with the new frame outside the dirty list. */
  lemma ExportHoldsIff(s: Staged, planes: int, texture: seq<byte>, w: nat, h: nat, dirty: seq<DirtyRect>,
                       full: bool, env: BlitEnv)
    requires s.Valid() && w > 0 && h > 0 && |texture| == w * h * 4
    requires BlitAndExport(s, planes, texture, w, h, dirty, full, env).1
    ensures var b := BlitAndExport(s, planes, texture, w, h, dirty, full, env).0;
            b.image == Flip(texture, w, h) <==>
              !b.partial || CanvasesAgree(s.image, Flip(texture, w, h), w, h, dirty)
  {
    var b := EnsureBo(s, w, h, env).0;
    FullBlitIsFlip(b.image, texture, w, h);
    if BlitsPartially(b, dirty, w, h, full) {
      PartialHoldsIff(b.image, texture, w, h, dirty);
    }
  }

  /** In particular after a full blit, into a buffer of another size or an
      uninitialised one, and when the precondition of a partial one held. */
  lemma ExportHoldsFrame(s: Staged, planes: int, texture: seq<byte>, w: nat, h: nat, dirty: seq<DirtyRect>,
                         full: bool, env: BlitEnv)
    requires s.Valid() && w > 0 && h > 0 && |texture| == w * h * 4
    requires full || !(s.initialized && s.w == w && s.h == h)
             || CanvasesAgree(s.image, Flip(texture, w, h), w, h, dirty)
    requires BlitAndExport(s, planes, texture, w, h, dirty, full, env).1
    ensures BlitAndExport(s, planes, texture, w, h, dirty, full, env).0.image == Flip(texture, w, h)
  {
    ExportHoldsIff(s, planes, texture, w, h, dirty, full, env);
  }

  /** Any rectangle that clipping empties sends the whole list down the full
      path, whatever the staged image was. */
  lemma UnclippableFallsBack(s: Staged, planes: int, texture: seq<byte>, w: nat, h: nat, dirty: seq<DirtyRect>,
                             full: bool, env: BlitEnv, k: nat)
    requires s.Valid() && w > 0 && h > 0 && |texture| == w * h * 4
    requires k < |dirty| && !Clippable(dirty[k], w, h)
    requires BlitAndExport(s, planes, texture, w, h, dirty, full, env).1
    ensures !BlitAndExport(s, planes, texture, w, h, dirty, full, env).0.partial
    ensures BlitAndExport(s, planes, texture, w, h, dirty, full, env).0.image == Flip(texture, w, h)
  {
    var b := EnsureBo(s, w, h, env).0;
    assert DirtyBlitRect(dirty[k], w, h).None?;
    FullBlitIsFlip(b.image, texture, w, h);
  }

  /** Reading a staged buffer back. */
  function ReadPixels(s: Staged, glOk: bool): Option<seq<byte>> {
    if !s.initialized || s.w == 0 || s.h == 0 || s.w * s.h * 4 > PIXEL_BYTES_LIMIT || !glOk then None
    else Some(s.image)
  }

  /** The class: one staging buffer, updated in place. */
  class GpuBuf {
    var bo: bool
    var boW: nat
    var boH: nat
    var boInitialized: bool
    var lastBlitPartial: bool
    var generation: nat
    var image: seq<byte>
    ghost var serial: nat
    ghost var author: Author

    ghost function Value(): Staged
      reads this
    {
      Staged(bo, boW, boH, boInitialized, lastBlitPartial, generation, serial, image, author)
    }

    constructor ()
      ensures Value() == FRESH
    {
      bo, boW, boH, boInitialized, lastBlitPartial := false, 0, 0, false, false;
      generation, serial, image, author := 1, 0, [], ByView;
    }

    method DestroyBo()
      modifies this
      ensures Value() == Destroyed(old(Value()))
    {
      bo, image, author := false, [], ByView;
      boW, boH := 0, 0;
      boInitialized := false;
      lastBlitPartial := false;
    }

    /** ++generation_, with zero skipped before and after. */
    method Advance()
      requires generation < U16_LIMIT
      modifies this`generation
      ensures generation == NextGeneration(old(generation))
    {
      if generation == 0 {
        generation := 1;
      }
      generation := (generation + 1) % U16_LIMIT;
      if generation == 0 {
        generation := 1;
      }
    }

    method Ensure(w: nat, h: nat, env: BlitEnv) returns (ok: bool)
      requires Value().Valid() && w > 0 && h > 0
      modifies this
      ensures (Value(), ok) == EnsureBo(old(Value()), w, h, env)
    {
      if bo && boW == w && boH == h {
        return true;
      }
      DestroyBo();
      if env.bo == CreateFailed {
        return false;
      }
      bo, boW, boH := true, w, h;
      image := Unwritten(env.garbage, w * h * 4);
      serial := serial + 1;
      IdentifierSteps(serial - 1);
      Advance();
      if env.bo == BindFailed {
        DestroyBo();
        return false;
      }
      return true;
    }

    method Blits(texture: seq<byte>, w: nat, h: nat, dirty: seq<DirtyRect>)
      requires w > 0 && |texture| == |image| == w * h * 4
      requires forall k | 0 <= k < |dirty| :: DirtyBlitRect(dirty[k], w, h).Some?
      modifies this`image
      ensures image == BlitAll(old(image), texture, w, h, dirty)
    {
      var k := 0;
      while k < |dirty|
        invariant k <= |dirty|
        invariant image == BlitAll(old(image), texture, w, h, dirty[..k])
      {
        assert dirty[..k + 1][..k] == dirty[..k];
        image := Blit(image, texture, w, h, DirtyBlitRect(dirty[k], w, h).value);
        k := k + 1;
      }
      assert dirty[..k] == dirty;
    }

    /** Blit the CEF frame into the cached buffer. */
    method Export(planes: int, texture: seq<byte>, w: nat, h: nat, dirty: seq<DirtyRect>, full: bool, env: BlitEnv)
      returns (ok: bool)
      requires Value().Valid() && w > 0 && h > 0 && |texture| == w * h * 4
      modifies this
      ensures (Value(), ok) == BlitAndExport(old(Value()), planes, texture, w, h, dirty, full, env)
    {
      if planes < 1 || !env.current {
        return false;
      }
      var usable := Ensure(w, h, env);
      if !usable || !env.imported {
        return false;
      }
      var partial := boInitialized && !full && |dirty| != 0 && |dirty| <= MAX_DIRTY;
      if partial {
        var k := 0;
        while k < |dirty|
          invariant k <= |dirty|
          invariant partial <==> forall j | 0 <= j < k :: DirtyBlitRect(dirty[j], w, h).Some?
        {
          if DirtyBlitRect(dirty[k], w, h).None? {
            partial := false;
            break;
          }
          k := k + 1;
        }
        assert partial ==> forall j | 0 <= j < |dirty| :: DirtyBlitRect(dirty[j], w, h).Some?;
      }
      if !env.blitted {
        image, author := Unwritten(env.garbage, w * h * 4), ByView;
        boInitialized := false;
        return false;
      }
      if partial {
        Blits(texture, w, h, dirty);
      } else {
        image := Blit(image, texture, w, h, FullBlitRect(w, h));
      }
      author := ByView;
      boInitialized := true;
      lastBlitPartial := partial;
      return true;
    }

    /** Nothing is written on failure. */
    method Read(glOk: bool) returns (out: Option<seq<byte>>)
      ensures out == ReadPixels(Value(), glOk)
    {
      if !boInitialized || boW == 0 || boH == 0 || boW * boH * 4 > PIXEL_BYTES_LIMIT || !glOk {
        return None;
      }
      return Some(image);
    }
  }
}
