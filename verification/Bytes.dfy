/** Bytes, C integer widths and the pointer-or-null type shared by the model. */
module Bytes {

  newtype byte = x: int | 0 <= x < 256

  const U16_LIMIT: nat := 0x1_0000
  const U32_LIMIT: nat := 0x1_0000_0000
  const U64_LIMIT: nat := 0x1_0000_0000_0000_0000

  datatype Option<+T> = None | Some(value: T)

  lemma SliceOfSlice<T>(s: seq<T>, at: nat, n: nat, i: nat, k: nat)
    requires at + n <= |s| && i + k <= n
    ensures s[at..at + n][i..i + k] == s[at + i..at + i + k]
  {
    var t, u := s[at..at + n][i..i + k], s[at + i..at + i + k];
    assert forall j | 0 <= j < k :: t[j] == s[at..at + n][i + j] == u[j];
  }

  /** Unsigned 64-bit arithmetic wraps. */
  function U64(n: nat): nat {
    n % U64_LIMIT
  }

  /** A 32-bit field as it lies in memory on a little-endian machine. */
  function U32Bytes(n: nat): (b: seq<byte>)
    requires n < U32_LIMIT
    ensures |b| == 4
  {
    [(n % 256) as byte, (n / 256 % 256) as byte, (n / 0x1_0000 % 256) as byte, (n / 0x100_0000) as byte]
  }

  function U32At(b: seq<byte>, at: nat): (n: nat)
    requires at + 4 <= |b|
    ensures n < U32_LIMIT
  {
    b[at] as nat + 256 * (b[at + 1] as nat) + 0x1_0000 * (b[at + 2] as nat) + 0x100_0000 * (b[at + 3] as nat)
  }

  lemma U32RoundTrip(n: nat, prefix: seq<byte>, suffix: seq<byte>)
    requires n < U32_LIMIT
    ensures U32At(prefix + U32Bytes(n) + suffix, |prefix|) == n
  {
    var b := prefix + U32Bytes(n) + suffix;
    assert forall k | 0 <= k < 4 :: b[|prefix| + k] == U32Bytes(n)[k];
    assert n == n % 256 + 256 * (n / 256);
    assert n / 256 == n / 256 % 256 + 256 * (n / 0x1_0000);
    assert n / 0x1_0000 == n / 0x1_0000 % 256 + 256 * (n / 0x100_0000);
  }
}
