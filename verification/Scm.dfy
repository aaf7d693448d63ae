/** Receiving a frame header with its descriptors over the socket. */
module Scm {
  import opened Descriptors

  const MAX_FDS: nat := 4

  /** One control message: is its length sound, is it SCM_RIGHTS, is its payload
      a whole number of descriptors, and which ones the kernel installed. */
  datatype Cmsg = Cmsg(lengthOk: bool, rights: bool, whole: bool, fds: seq<int>)

  datatype Outcome = WouldBlock | Failed | Closed | Message(n: nat, truncated: bool, cmsgs: seq<Cmsg>)

  /** What the loop over the control messages copies out, and how it ends. */
  datatype Scan = Scan(fds: seq<int>, malformed: bool, hasRights: bool)

  predicate Acceptable(m: Cmsg, room: nat) {
    m.whole && |m.fds| <= room
  }

  function Scanned(cmsgs: seq<Cmsg>, room: nat): (s: Scan)
    ensures |s.fds| <= room
  {
    if cmsgs == [] then Scan([], false, false)
    else
      var m := cmsgs[0];
      if !m.lengthOk then Scan([], true, false)
      else if !m.rights then Scanned(cmsgs[1..], room)
      else if !Acceptable(m, room) then Scan([], true, false)
      else
        var rest := Scanned(cmsgs[1..], room - |m.fds|);
        Scan(m.fds + rest.fds, rest.malformed, true)
  }

  /** Every descriptor the message brought into the process. */
  function Brought(cmsgs: seq<Cmsg>): seq<int> {
    if cmsgs == [] then []
    else (if cmsgs[0].rights then cmsgs[0].fds else []) + Brought(cmsgs[1..])
  }

  /** The descriptors copied out come first, in order; without a malformed
      message that is all of them. */
  lemma {:induction false} ScannedIsPrefix(cmsgs: seq<Cmsg>, room: nat)
    ensures Scanned(cmsgs, room).fds <= Brought(cmsgs)
    ensures !Scanned(cmsgs, room).malformed ==> Scanned(cmsgs, room).fds == Brought(cmsgs)
  {
    if cmsgs != [] {
      var m := cmsgs[0];
      if m.lengthOk && !m.rights {
        ScannedIsPrefix(cmsgs[1..], room);
        assert Brought(cmsgs) == [] + Brought(cmsgs[1..]);
      } else if m.lengthOk && Acceptable(m, room) {
        ScannedIsPrefix(cmsgs[1..], room - |m.fds|);
      }
    }
  }

  predicate KernelGives(cmsgs: seq<Cmsg>, open: set<int>) {
    var fds := Brought(cmsgs);
    Distinct(fds) && (forall k | 0 <= k < |fds| :: fds[k] >= 0) && Live(fds) !! open
  }

  predicate Bad(m: Cmsg, room: nat) {
    !m.lengthOk || (m.rights && !Acceptable(m, room))
  }

  function Copies(m: Cmsg): seq<int> {
    if m.rights then m.fds else []
  }

  /** What has been copied, followed by the rest of the scan. */
  function Join(done: seq<int>, hasRights: bool, rest: Scan): Scan {
    Scan(done + rest.fds, rest.malformed, hasRights || rest.hasRights)
  }

  /** One iteration of the loop, seen from the whole scan. */
  lemma JoinStep(cmsgs: seq<Cmsg>, i: nat, done: seq<int>, hasRights: bool)
    requires i < |cmsgs| && |done| <= MAX_FDS
    ensures var m, whole := cmsgs[i], Join(done, hasRights, Scanned(cmsgs[i..], MAX_FDS - |done|));
            if Bad(m, MAX_FDS - |done|) then whole == Join(done, hasRights, Scan([], true, false))
            else
              && |done + Copies(m)| <= MAX_FDS
              && whole == Join(done + Copies(m), hasRights || m.rights,
                               Scanned(cmsgs[i + 1..], MAX_FDS - |done + Copies(m)|))
  {
    assert cmsgs[i..][1..] == cmsgs[i + 1..];
    var m := cmsgs[i];
    if m.lengthOk && m.rights && Acceptable(m, MAX_FDS - |done|) {
      var rest := Scanned(cmsgs[i + 1..], MAX_FDS - |done| - |m.fds|);
      assert done + (m.fds + rest.fds) == (done + m.fds) + rest.fds;
    } else if m.lengthOk && !m.rights {
      assert done + [] == done;
    }
  }

  method CopyFds(fds: array<int>, at: nat, from: seq<int>)
    requires at + |from| <= fds.Length
    modifies fds
    ensures fds[..] == old(fds[..])[..at] + from + old(fds[..])[at + |from|..]
  {
    forall j | 0 <= j < |from| {
      fds[at + j] := from[j];
    }
  }

  /** Is the message malformed? If not, its descriptors are copied. */
  method TakeMessage(m: Cmsg, fds: array<int>, received: nat) returns (malformed: bool, now: nat)
    requires fds.Length == MAX_FDS && received <= MAX_FDS
    requires forall k | received <= k < MAX_FDS :: fds[k] == -1
    modifies fds
    ensures malformed == Bad(m, MAX_FDS - received) && received <= now <= MAX_FDS
    ensures fds[..now] == old(fds[..received]) + if malformed then [] else Copies(m)
    ensures forall k | now <= k < MAX_FDS :: fds[k] == -1
  {
    if !m.lengthOk {
      return true, received;
    }
    if !m.rights {
      return false, received;
    }
    if !m.whole || |m.fds| > MAX_FDS - received {
      return true, received;
    }
    CopyFds(fds, received, m.fds);
    return false, received + |m.fds|;
  }

  /** The loop over the control messages. */
  method Collect(cmsgs: seq<Cmsg>, fds: array<int>) returns (received: nat, malformed: bool, hasRights: bool)
    requires fds.Length == MAX_FDS && forall k | 0 <= k < MAX_FDS :: fds[k] == -1
    modifies fds
    ensures received <= MAX_FDS && Scan(fds[..received], malformed, hasRights) == Scanned(cmsgs, MAX_FDS)
    ensures forall k | received <= k < MAX_FDS :: fds[k] == -1
  {
    received, malformed, hasRights := 0, false, false;
    var i := 0;
    ghost var done: seq<int> := [];
    assert cmsgs[0..] == cmsgs;
    assert Join([], false, Scanned(cmsgs, MAX_FDS)) == Scanned(cmsgs, MAX_FDS);
    while i < |cmsgs| && !malformed
      invariant i <= |cmsgs| && received == |done| <= MAX_FDS && fds[..received] == done
      invariant forall k | received <= k < MAX_FDS :: fds[k] == -1
      invariant Scanned(cmsgs, MAX_FDS) == Join(done, hasRights,
                  if malformed then Scan([], true, false) else Scanned(cmsgs[i..], MAX_FDS - |done|))
    {
      var m := cmsgs[i];
      JoinStep(cmsgs, i, done, hasRights);
      malformed, received := TakeMessage(m, fds, received);
      if !malformed {
        done := done + Copies(m);
        hasRights := hasRights || m.rights;
      }
      i := i + 1;
    }
    assert !malformed ==> cmsgs[i..] == [];
    assert done + [] == done;
  }

  /** The descriptors of a failed message that nobody will ever close. */
  function Leaked(cmsgs: seq<Cmsg>): set<int> {
    ScannedIsPrefix(cmsgs, MAX_FDS);
    Live(Brought(cmsgs)[|Scanned(cmsgs, MAX_FDS).fds|..])
  }

  /** What a kernel delivers into a buffer for four descriptors: control messages
      of sound length, whole descriptors, at most four of them. */
  predicate Sound(cmsgs: seq<Cmsg>) {
    |Brought(cmsgs)| <= MAX_FDS
    && forall k | 0 <= k < |cmsgs| :: cmsgs[k].lengthOk && (cmsgs[k].rights ==> cmsgs[k].whole)
  }

  lemma {:induction false} SoundIsScanned(cmsgs: seq<Cmsg>, room: nat)
    requires |Brought(cmsgs)| <= room
    requires forall k | 0 <= k < |cmsgs| :: cmsgs[k].lengthOk && (cmsgs[k].rights ==> cmsgs[k].whole)
    ensures !Scanned(cmsgs, room).malformed
  {
    if cmsgs != [] {
      SoundIsScanned(cmsgs[1..], if cmsgs[0].rights then room - |cmsgs[0].fds| else room);
    }
  }

  /** Of such a message no descriptor leaks, whatever fails. */
  lemma SoundLeaksNothing(cmsgs: seq<Cmsg>)
    requires Sound(cmsgs)
    ensures Leaked(cmsgs) == {}
  {
    SoundIsScanned(cmsgs, MAX_FDS);
    ScannedIsPrefix(cmsgs, MAX_FDS);
    var fds := Brought(cmsgs);
    assert fds[|fds|..] == [];
  }

  /** Returns 1 for a complete message, 0 for none yet, -1 for a failure. A
      failed receive leaves open none of the descriptors it copied out, and all
      of those it did not get to. */
  method RecvFds(table: FdTable, outcome: Outcome, len: nat, fds: array<int>) returns (rc: int, nfd: nat)
    requires fds.Length == MAX_FDS
    requires outcome.Message? ==> KernelGives(outcome.cmsgs, table.open)
    modifies table, fds
    ensures rc == 1 <==> outcome.Message? && outcome.n == len && len > 0 && !outcome.truncated
                         && !Scanned(outcome.cmsgs, MAX_FDS).malformed && Scanned(outcome.cmsgs, MAX_FDS).hasRights
    ensures rc == 1 ==> nfd <= MAX_FDS && fds[..nfd] == Brought(outcome.cmsgs)
                        && table.open == old(table.open) + Live(fds[..nfd])
    ensures rc == 1 ==> forall k | nfd <= k < MAX_FDS :: fds[k] == -1
    ensures rc != 1 ==> nfd == 0 && forall k | 0 <= k < MAX_FDS :: fds[k] == -1
    ensures rc == 0 <==> outcome.WouldBlock?
    ensures rc != 1 ==> table.open == old(table.open)
                        + (if outcome.Message? && outcome.n > 0 then Leaked(outcome.cmsgs) else {})
  {
    forall k | 0 <= k < MAX_FDS {
      fds[k] := -1;
    }
    nfd := 0;
    if outcome.WouldBlock? {
      return 0, 0;
    }
    if !outcome.Message? || outcome.n == 0 {
      return -1, 0;
    }
    table.Install(Brought(outcome.cmsgs));
    var received, malformed, hasRights := Collect(outcome.cmsgs, fds);
    ScannedIsPrefix(outcome.cmsgs, MAX_FDS);
    if outcome.truncated || malformed || !hasRights || outcome.n != len {
      assert fds[..received] + Brought(outcome.cmsgs)[received..] == Brought(outcome.cmsgs);
      CloseReceived(table, fds, received, Brought(outcome.cmsgs)[received..], old(table.open));
      return -1, 0;
    }
    return 1, received;
  }

  lemma LiveSplits(fds: seq<int>, k: nat)
    requires k <= |fds| && Distinct(fds) && forall j | 0 <= j < |fds| :: fds[j] >= 0
    ensures Live(fds) == Live(fds[..k]) + Live(fds[k..]) && Live(fds[..k]) !! Live(fds[k..])
  {
    forall x | x in Live(fds) ensures x in Live(fds[..k]) + Live(fds[k..]) {
      var j :| 0 <= j < |fds| && fds[j] >= 0 && fds[j] == x;
      if j < k {
        assert fds[..k][j] == x;
      } else {
        assert fds[k..][j - k] == x;
      }
    }
    forall x | x in Live(fds[..k]) ensures x in Live(fds) && x !in Live(fds[k..]) {
      var i :| 0 <= i < k && fds[..k][i] >= 0 && fds[..k][i] == x;
      assert fds[i] == x;
      forall j | 0 <= j < |fds| - k ensures fds[k..][j] != x {
        assert fds[k..][j] == fds[k + j];
      }
    }
    forall x | x in Live(fds[k..]) ensures x in Live(fds) {
      var j :| 0 <= j < |fds| - k && fds[k..][j] >= 0 && fds[k..][j] == x;
      assert fds[k + j] == x;
    }
  }

  /** Closes the first n entries. */
  method CloseReceived(table: FdTable, fds: array<int>, n: nat, ghost others: seq<int>, ghost before: set<int>)
    requires fds.Length == MAX_FDS && n <= MAX_FDS && forall k | n <= k < MAX_FDS :: fds[k] == -1
    requires var all := fds[..n] + others;
             Distinct(all) && (forall k | 0 <= k < |all| :: all[k] >= 0) && Live(all) !! before
             && table.open == before + Live(all)
    modifies table, fds
    ensures table.open == before + Live(others)
    ensures forall k | 0 <= k < MAX_FDS :: fds[k] == -1
  {
    ghost var mine, all := fds[..n], fds[..n] + others;
    LiveSplits(all, n);
    assert all[..n] == mine && all[n..] == others;
    var i := 0;
    while i < n
      invariant i <= n
      invariant forall k | 0 <= k < i || n <= k < MAX_FDS :: fds[k] == -1
      invariant forall k | i <= k < n :: fds[k] == mine[k]
      invariant table.open == before + Live(others) + Live(mine[i..])
    {
      CloseNext(mine, i, others, before);
      if fds[i] >= 0 {
        table.Close(fds[i]);
        fds[i] := -1;
      }
      i := i + 1;
    }
  }

  lemma CloseNext(mine: seq<int>, i: nat, others: seq<int>, before: set<int>)
    requires i < |mine| && Distinct(mine + others) && forall k | 0 <= k < |mine + others| :: (mine + others)[k] >= 0
    requires Live(mine + others) !! before && Live(mine) !! Live(others)
    ensures mine[i] >= 0 && mine[i] in Live(mine[i..])
    ensures before + Live(others) + Live(mine[i + 1..]) == before + Live(others) + Live(mine[i..]) - {mine[i]}
  {
    var all := mine + others;
    assert all[i] == mine[i];
    LiveSplits(all, |mine|);
    assert all[..|mine|] == mine && all[|mine|..] == others;
    forall j, k | 0 <= j < k < |mine| ensures mine[j] != mine[k] {
      assert all[j] == mine[j] && all[k] == mine[k];
    }
    forall k | 0 <= k < |mine| ensures mine[k] >= 0 {
      assert all[k] == mine[k];
    }
    assert mine[i..][0] == mine[i];
    LiveSplits(mine[i..], 1);
    assert mine[i..][..1] == [mine[i]] && mine[i..][1..] == mine[i + 1..];
    assert Live([mine[i]]) == {mine[i]} by {
      assert [mine[i]][0] == mine[i];
    }
    assert mine[i] in Live(mine) by {
      assert mine[i] == mine[i];
    }
  }
}
