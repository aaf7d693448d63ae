/** Copies between a private buffer and memory another process sees: their words
    move one at a time, in any order. */
module SharedMemory {

  /** The indices still to be copied at the start. */
  function Words(n: nat): (w: set<nat>)
    ensures forall i: nat :: i in w <==> i < n
  {
    if n == 0 then {} else Words(n - 1) + {n - 1}
  }

  /** Of the first n elements those not still to be copied agree. */
  predicate Copied<T(==)>(from: seq<T>, to: seq<T>, todo: set<nat>, n: nat) {
    n <= |from| && n <= |to| && forall i | 0 <= i < n && i !in todo :: from[i] == to[i]
  }

  lemma CopiedAll<T>(from: seq<T>, to: seq<T>)
    requires |from| == |to| && Copied(from, to, {}, |from|)
    ensures from == to
  {
  }

  lemma CopiedOne<T>(from: seq<T>, to: seq<T>, todo: set<nat>, n: nat, i: nat)
    requires Copied(from, to, todo, n) && i < |to| && i < |from|
    ensures Copied(from, to[i := from[i]], todo - {i}, n)
  {
  }
}
