/** Little-endian integers in byte buffers. */
module Bytes {
  import opened Prelude

  function Le16(n: nat): (b: seq<Byte>)
    requires n < 0x1_0000
    ensures |b| == 2
  {
    [n % 256, n / 256]
  }

  function Le32(n: nat): (b: seq<Byte>)
    requires n < TWO_TO_32
    ensures |b| == 4
  {
    [n % 256, n / 256 % 256, n / 65536 % 256, n / 16777216]
  }

  function Read16(b: seq<Byte>, i: nat): (n: nat)
    requires i + 2 <= |b|
    ensures n < 0x1_0000
  {
    b[i] as int + 256 * (b[i + 1] as int)
  }

  function Read32(b: seq<Byte>, i: nat): (n: nat)
    requires i + 4 <= |b|
    ensures n < TWO_TO_32
  {
    b[i] as int + 256 * (b[i + 1] as int) + 65536 * (b[i + 2] as int) + 16777216 * (b[i + 3] as int)
  }

  lemma SumOfDigits(n: nat)
    ensures n == n % 256 + 256 * (n / 256 % 256) + 65536 * (n / 65536 % 256) + 16777216 * (n / 16777216)
  {
    assert n / 65536 == n / 256 / 256;
    assert n / 16777216 == n / 65536 / 256;
  }

  lemma ReadBack32(b: seq<Byte>, i: nat, n: nat)
    requires n < TWO_TO_32 && i + 4 <= |b| && b[i..i + 4] == Le32(n)
    ensures Read32(b, i) == n
  {
    var s := b[i..i + 4];
    assert b[i] == s[0] && b[i + 1] == s[1] && b[i + 2] == s[2] && b[i + 3] == s[3];
    SumOfDigits(n);
  }

  lemma ReadBack16(b: seq<Byte>, i: nat, n: nat)
    requires n < 0x1_0000 && i + 2 <= |b| && b[i..i + 2] == Le16(n)
    ensures Read16(b, i) == n
  {
    var s := b[i..i + 2];
    assert b[i] == s[0] && b[i + 1] == s[1];
  }

  /** Two's complement: a 32-bit signed integer as the unsigned one with the same bits. */
  function Unsigned32(n: int): (u: nat)
    requires -0x8000_0000 <= n < 0x8000_0000
    ensures u < TWO_TO_32 && Signed32(u) == n
  {
    if n < 0 then n + TWO_TO_32 else n
  }

  function Signed32(u: nat): int {
    if u < 0x8000_0000 then u else u - TWO_TO_32
  }

  function Zeros(n: nat): (b: seq<Byte>)
    ensures |b| == n && forall i :: 0 <= i < n ==> b[i] == 0
  {
    seq(n, _ => 0)
  }
}
