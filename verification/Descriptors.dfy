/** File descriptors: who holds which, closing each exactly once, and receiving
    them as ancillary data. A descriptor stands for one opening, so a number the
    kernel reuses counts as a new one. */
module Descriptors {

  /** The holders' entries; -1 holds nothing. */
  function Live(entries: seq<int>): set<int> {
    set k | 0 <= k < |entries| && entries[k] >= 0 :: entries[k]
  }

  predicate Distinct(entries: seq<int>) {
    forall i, j :: 0 <= i < j < |entries| && entries[i] >= 0 ==> entries[i] != entries[j]
  }

  /** Every open descriptor is held in exactly one entry. */
  predicate Ledger(entries: seq<int>, open: set<int>) {
    Distinct(entries) && open == Live(entries)
  }

  /** The process's table of the descriptors that frames brought. */
  class FdTable {
    ghost var open: set<int>

    constructor ()
      ensures open == {}
    {
      open := {};
    }

    /** close(fd); a second close of the same opening is an error of the caller. */
    method Close(fd: int)
      requires fd in open
      modifies this
      ensures open == old(open) - {fd}
    {
      open := open - {fd};
    }

    /** The kernel hands over descriptors that were not open here before. */
    ghost method Install(fds: seq<int>)
      requires Live(fds) !! open
      modifies this
      ensures open == old(open) + Live(fds)
    {
      open := open + Live(fds);
    }
  }

  lemma LedgerClose(entries: seq<int>, open: set<int>, k: nat)
    requires Ledger(entries, open) && k < |entries| && entries[k] >= 0
    ensures entries[k] in open && Ledger(entries[k := -1], open - {entries[k]})
  {
    var after := entries[k := -1];
    forall x | x in open - {entries[k]} ensures x in Live(after) {
      var j :| 0 <= j < |entries| && entries[j] >= 0 && entries[j] == x;
      assert after[j] == x;
    }
    forall x | x in Live(after) ensures x in open - {entries[k]} {
      var j :| 0 <= j < |after| && after[j] >= 0 && after[j] == x;
      assert j != k && entries[j] == x;
    }
  }

  lemma LedgerAdd(entries: seq<int>, open: set<int>, fds: seq<int>)
    requires Ledger(entries, open) && Distinct(fds) && Live(fds) !! open
    ensures Ledger(fds + entries, open + Live(fds))
  {
    var all := fds + entries;
    forall x | x in open + Live(fds) ensures x in Live(all) {
      if x in open {
        var j :| 0 <= j < |entries| && entries[j] >= 0 && entries[j] == x;
        assert all[|fds| + j] == x;
      } else {
        var j :| 0 <= j < |fds| && fds[j] >= 0 && fds[j] == x;
        assert all[j] == x;
      }
    }
    forall x | x in Live(all) ensures x in open + Live(fds) {
      var j :| 0 <= j < |all| && all[j] >= 0 && all[j] == x;
      if j < |fds| {
        assert fds[j] == x;
      } else {
        assert entries[j - |fds|] == x;
      }
    }
    forall i, j | 0 <= i < j < |all| && all[i] >= 0 ensures all[i] != all[j] {
      if i < |fds| <= j {
        assert fds[i] in Live(fds);
        if all[j] >= 0 {
          assert entries[j - |fds|] in open;
        }
      } else if |fds| <= i {
        assert all[i] == entries[i - |fds|] && all[j] == entries[j - |fds|];
      }
    }
  }

  /** A descriptor moves from one entry to an empty one. */
  lemma LedgerMove(entries: seq<int>, open: set<int>, from: nat, to: nat)
    requires Ledger(entries, open) && from < |entries| && to < |entries| && from != to && entries[to] < 0
    ensures Ledger(entries[to := entries[from]][from := -1], open)
  {
    var after := entries[to := entries[from]][from := -1];
    forall x | x in Live(entries) ensures x in Live(after) {
      var j :| 0 <= j < |entries| && entries[j] >= 0 && entries[j] == x;
      assert if j == from then after[to] == x else after[j] == x;
    }
    forall x | x in Live(after) ensures x in Live(entries) {
      var j :| 0 <= j < |after| && after[j] >= 0 && after[j] == x;
      assert if j == to then entries[from] == x else entries[j] == x;
    }
  }

  lemma LedgerSwap(a: seq<int>, b: seq<int>, open: set<int>)
    requires Ledger(a + b, open)
    ensures Ledger(b + a, open)
  {
    var ab, ba := a + b, b + a;
    forall x ensures x in Live(ab) <==> x in Live(ba) {
      if x in Live(ab) {
        var j :| 0 <= j < |ab| && ab[j] >= 0 && ab[j] == x;
        assert ba[if j < |a| then j + |b| else j - |a|] == x;
      }
      if x in Live(ba) {
        var j :| 0 <= j < |ba| && ba[j] >= 0 && ba[j] == x;
        assert ab[if j < |b| then j + |a| else j - |b|] == x;
      }
    }
    forall i, j | 0 <= i < j < |ba| && ba[i] >= 0 ensures ba[i] != ba[j] {
      assert ab[if i < |b| then i + |a| else i - |b|] == ba[i];
      assert ab[if j < |b| then j + |a| else j - |b|] == ba[j];
    }
  }

  /** Entries that hold nothing make no difference. */
  lemma LedgerGap(a: seq<int>, d: seq<int>, s: seq<int>, open: set<int>)
    requires forall k | 0 <= k < |d| :: d[k] < 0
    ensures Ledger(a + s, open) <==> Ledger(a + d + s, open)
  {
    var short, long := a + s, a + d + s;
    forall x ensures x in Live(short) <==> x in Live(long) {
      if x in Live(short) {
        var j :| 0 <= j < |short| && short[j] >= 0 && short[j] == x;
        assert long[if j < |a| then j else j + |d|] == x;
      }
      if x in Live(long) {
        var j :| 0 <= j < |long| && long[j] >= 0 && long[j] == x;
        assert short[if j < |a| then j else j - |d|] == x;
      }
    }
    GapDistinct(a, d, s);
  }

  lemma GapDistinct(a: seq<int>, d: seq<int>, s: seq<int>)
    requires forall k | 0 <= k < |d| :: d[k] < 0
    ensures Distinct(a + s) <==> Distinct(a + d + s)
  {
    var short, long := a + s, a + d + s;
    if Distinct(long) {
      forall i, j | 0 <= i < j < |short| && short[i] >= 0 ensures short[i] != short[j] {
        assert long[if i < |a| then i else i + |d|] == short[i];
        assert long[if j < |a| then j else j + |d|] == short[j];
      }
    }
    if Distinct(short) {
      forall i, j | 0 <= i < j < |long| && long[i] >= 0 ensures long[i] != long[j] {
        if j < |a| || j >= |a| + |d| {
          assert short[if i < |a| then i else i - |d|] == long[i];
          assert short[if j < |a| then j else j - |d|] == long[j];
        }
      }
    }
  }

  /** The loop of idk_compositor_close_frame_fds over one array of a ledger. */
  method CloseRange(table: FdTable, fds: array<int>, ghost rest: seq<int>)
    requires Ledger(fds[..] + rest, table.open)
    modifies table, fds
    ensures forall k | 0 <= k < fds.Length :: fds[k] < 0
    ensures Ledger(fds[..] + rest, table.open) && Ledger(rest, table.open)
    ensures table.open <= old(table.open)
  {
    var i := 0;
    while i < fds.Length
      invariant i <= fds.Length && table.open <= old(table.open)
      invariant Ledger(fds[..] + rest, table.open)
      invariant forall k | 0 <= k < i :: fds[k] < 0
    {
      if fds[i] >= 0 {
        ghost var before := fds[..] + rest;
        LedgerClose(before, table.open, i);
        table.Close(fds[i]);
        fds[i] := -1;
        assert fds[..] + rest == before[i := -1];
      }
      i := i + 1;
    }
    LedgerGap([], fds[..], rest, table.open);
    assert [] + rest == rest && [] + fds[..] + rest == fds[..] + rest;
  }

  /** The same for a local array of four filled from the descriptors received. */
  method CloseLocal(table: FdTable, received: seq<int>, ghost rest: seq<int>)
    requires |received| <= 4 && Ledger(received + rest, table.open)
    modifies table
    ensures Ledger(rest, table.open) && table.open <= old(table.open)
  {
    var fds := new int[4](k => if 0 <= k < |received| then received[k] else -1);
    ghost var pad := fds[..][|received|..];
    assert fds[..] == received + pad;
    LedgerGap(received, pad, rest, table.open);
    CloseRange(table, fds, rest);
  }
}
