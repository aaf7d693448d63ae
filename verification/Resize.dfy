/** The game's resize debounce: noticing a new surface size, the millisecond test
    on the clock, and the ACK that finally carries the size. */
module Resize {
  import opened ControlWire
  import P = Pipeline

  const NS_PER_MS: int := 1_000_000
  const MS_PER_S: int := 1_000
  const NS_PER_S: int := 1_000_000_000
  const DEBOUNCE_MS: int := 50

  datatype Timespec = Timespec(sec: int, nsec: int) {
    predicate Valid() { 0 <= sec && 0 <= nsec < NS_PER_S }

    function Ns(): int { sec * NS_PER_S + nsec }
  }

  /** C's integer division truncates toward zero. */
  function TruncDiv(a: int, b: int): (q: int)
    requires b > 0
    ensures a >= 0 ==> q * b <= a < q * b + b
    ensures a < 0 ==> q * b - b < a <= q * b
  {
    if a >= 0 then a / b else -(-a / b)
  }

  function DeltaMs(last: Timespec, now: Timespec): int {
    (now.sec - last.sec) * MS_PER_S + TruncDiv(now.nsec - last.nsec, NS_PER_MS)
  }

  /** idk_comp_resize_stable for one reading of the clock. */
  predicate Stable(last: Timespec, now: Timespec, debounceMs: int) {
    last == Timespec(0, 0) || DeltaMs(last, now) >= debounceMs
  }

  /** The test fires exactly when the full time has passed, or, if the
      nanosecond field has gone back since, up to a millisecond before. */
  lemma StableIff(last: Timespec, now: Timespec, debounceMs: int)
    requires last.Valid() && now.Valid() && last != Timespec(0, 0)
    ensures var elapsed := now.Ns() - last.Ns();
            Stable(last, now, debounceMs) <==>
              if now.nsec >= last.nsec then elapsed >= debounceMs * NS_PER_MS
              else elapsed > (debounceMs - 1) * NS_PER_MS
  {
    var ds, dn := now.sec - last.sec, now.nsec - last.nsec;
    var q := TruncDiv(dn, NS_PER_MS);
    assert now.Ns() - last.Ns() == ds * NS_PER_S + dn;
    assert DeltaMs(last, now) == ds * MS_PER_S + q;
  }

  /** Never more than a millisecond early, and always once the time is up. */
  lemma StableIsPrompt(last: Timespec, now: Timespec, debounceMs: int)
    requires last.Valid() && now.Valid() && last != Timespec(0, 0)
    ensures Stable(last, now, debounceMs) ==> now.Ns() - last.Ns() > (debounceMs - 1) * NS_PER_MS
    ensures now.Ns() - last.Ns() >= debounceMs * NS_PER_MS ==> Stable(last, now, debounceMs)
  {
    StableIff(last, now, debounceMs);
  }

  /** The early millisecond is real: 49.000001 ms pass for 50. */
  lemma StableMayBeEarly()
    ensures var last, now := Timespec(1, 999_000_000), Timespec(2, 48_000_001);
            Stable(last, now, DEBOUNCE_MS) && now.Ns() - last.Ns() < DEBOUNCE_MS * NS_PER_MS
  {
    assert TruncDiv(48_000_001 - 999_000_000, NS_PER_MS) == -950;
  }

  /** Once true of an unchanged stamp the test stays true as the clock goes on,
      although the early millisecond depends on the nanosecond field. */
  lemma StableStays(last: Timespec, now: Timespec, later: Timespec, debounceMs: int)
    requires last.Valid() && now.Valid() && later.Valid() && later.Ns() >= now.Ns()
    requires Stable(last, now, debounceMs)
    ensures Stable(last, later, debounceMs)
  {
    if last != Timespec(0, 0) {
      assert later.sec >= now.sec;
      var q, r := TruncDiv(now.nsec - last.nsec, NS_PER_MS), TruncDiv(later.nsec - last.nsec, NS_PER_MS);
      if later.sec == now.sec {
        assert r >= q;
      } else {
        assert r >= q - MS_PER_S;
      }
    }
  }

  /** game_w, game_h, size_pending and last_resize_ts. */
  class SurfaceSize {
    var gameW: int
    var gameH: int
    var sizePending: bool
    var lastResize: Timespec
    ghost var notified: bool

    ghost function Value(): P.Game
      reads this
    {
      P.Game(gameW, gameH, notified, sizePending, false)
    }

    constructor ()
      ensures Value() == P.Game(0, 0, false, false, false) && lastResize == Timespec(0, 0)
    {
      gameW, gameH, sizePending, lastResize, notified := 0, 0, false, Timespec(0, 0), false;
    }

    /** Every change of size restarts the debounce; a repetition does not. */
    method NotifyResize(w: int, h: int, now: Timespec) returns (changed: bool)
      modifies this
      ensures Value() == P.Resized(old(Value()), w, h)
      ensures changed <==> w >= 1 && h >= 1 && (w != old(gameW) || h != old(gameH))
      ensures lastResize == if changed then now else old(lastResize)
    {
      if w < 1 || h < 1 {
        return false;
      }
      if w != gameW || h != gameH {
        gameW, gameH := w, h;
        sizePending := true;
        lastResize := now;
        notified := true;
        return true;
      }
      return false;
    }

    /** The answer to a frame, carrying the size once it has settled. */
    method BuildAck(accepted: bool, now: Timespec, debounceMs: int) returns (ack: AckMsg)
      modifies this
      ensures var stable := Stable(lastResize, now, debounceMs);
              ack == P.BuildAck(old(Value()), accepted, stable) && Value() == P.AfterAck(old(Value()), stable, true)
      ensures lastResize == old(lastResize)
    {
      ack := AckMsg(if accepted then Accepted else Rejected, 0, 0);
      if sizePending && Stable(lastResize, now, debounceMs) {
        ack := ack.(w := gameW, h := gameH);
        sizePending := false;
      }
    }
  }
}
