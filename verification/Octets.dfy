/** Octets and the big-endian 32-bit integers of SSH messages. */
module Octets {
  const TWO32 := 0x1_0000_0000

  type Octet = x: int | 0 <= x < 256
  type Octets = seq<Octet>
  type U32 = x: int | 0 <= x < TWO32

  /** What a 32-bit unsigned variable holds after being assigned `n`. */
  function Wrap32(n: int): U32 { n % TWO32 }

  lemma WrapSmall(n: int)
    requires 0 <= n < TWO32
    ensures Wrap32(n) == n
  {}

  lemma WrapAdd(x: int, y: int)
    ensures Wrap32(x + Wrap32(y)) == Wrap32(x + y)
  {}

  lemma WrapBoth(x: int, y: int, z: int)
    requires Wrap32(x) == Wrap32(y)
    ensures Wrap32(x + z) == Wrap32(y + z)
  {
    WrapAdd(z, x);
    WrapAdd(z, y);
  }

  /** `_libssh2_store_u32`. */
  function Store32(n: U32): (b: Octets)
    ensures |b| == 4
  {
    [n / 0x100_0000, n / 0x1_0000 % 256, n / 0x100 % 256, n % 256]
  }

  /** `_libssh2_ntohu32` of the four octets at `i`. */
  function Load32(b: Octets, i: nat): U32
    requires i + 4 <= |b|
  {
    (b[i] as int) * 0x100_0000 + (b[i + 1] as int) * 0x1_0000 + (b[i + 2] as int) * 0x100 + b[i + 3] as int
  }

  lemma Digits(n: U32, a: int, b: int, c: int, d: int)
    requires 0 <= a < 256 && 0 <= b < 256 && 0 <= c < 256 && 0 <= d < 256
    ensures n == a * 0x100_0000 + b * 0x1_0000 + c * 0x100 + d <==>
            a == n / 0x100_0000 && b == n / 0x1_0000 % 256 && c == n / 0x100 % 256 && d == n % 256
  {
    var x := n / 0x100;
    var y := x / 0x100;
    assert n == x * 0x100 + n % 0x100;
    assert x == y * 0x100 + x % 0x100;
    assert y == (y / 0x100) * 0x100 + y % 0x100;
    assert y == n / 0x1_0000 && y / 0x100 == n / 0x100_0000;
  }

  lemma LoadStored(n: U32, b: Octets, i: nat)
    requires i + 4 <= |b| && b[i..i + 4] == Store32(n)
    ensures Load32(b, i) == n
  {
    var t := Store32(n);
    assert b[i] == t[0] && b[i + 1] == t[1] && b[i + 2] == t[2] && b[i + 3] == t[3];
    Digits(n, t[0], t[1], t[2], t[3]);
  }

  lemma StoreLoaded(b: Octets, i: nat)
    requires i + 4 <= |b|
    ensures Store32(Load32(b, i)) == b[i..i + 4]
  {
    Digits(Load32(b, i), b[i], b[i + 1], b[i + 2], b[i + 3]);
  }
}
