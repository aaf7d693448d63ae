/** memcpy into an array. A const source pointer is the sequence it points at. */
module Memory {
  import opened Bytes

  method Memcpy(dst: array<byte>, to: nat, src: seq<byte>, from: nat, n: nat)
    requires to + n <= dst.Length && from + n <= |src|
    modifies dst
    ensures dst[..] == old(dst[..])[..to] + src[from..from + n] + old(dst[..])[to + n..]
  {
    forall j | 0 <= j < n {
      dst[to + j] := src[from + j];
    }
  }
}
