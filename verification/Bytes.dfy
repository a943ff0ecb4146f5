/** Fixed-width unsigned integers and their little-endian byte images, as the
    packed structures of the network and log formats are laid out in memory. */
module Bytes {

  type Byte = b: int | 0 <= b < 0x100
  type U8 = n: int | 0 <= n < 0x100
  type U16 = n: int | 0 <= n < 0x1_0000
  type U32 = n: int | 0 <= n < 0x1_0000_0000
  type U64 = n: int | 0 <= n < 0x1_0000_0000_0000_0000
  type I64 = n: int | -0x8000_0000_0000_0000 <= n < 0x8000_0000_0000_0000

  const TWO_32: int := 0x1_0000_0000
  const TWO_64: int := 0x1_0000_0000_0000_0000

  function Store16(n: U16): (s: seq<Byte>)
    ensures |s| == 2
  {
    [n % 0x100, n / 0x100]
  }

  function Store32(n: U32): (s: seq<Byte>)
    ensures |s| == 4
  {
    [n % 0x100, n / 0x100 % 0x100, n / 0x1_0000 % 0x100, n / 0x100_0000]
  }

  function Store64(n: U64): (s: seq<Byte>)
    ensures |s| == 8
  {
    Store32(n % TWO_32) + Store32(n / TWO_32)
  }

  function Load16(s: seq<Byte>, at: nat): U16
    requires at + 2 <= |s|
  {
    var a: int, b: int := s[at], s[at + 1];
    a + 0x100 * b
  }

  function Load32(s: seq<Byte>, at: nat): U32
    requires at + 4 <= |s|
  {
    var a: int, b: int, c: int, d: int := s[at], s[at + 1], s[at + 2], s[at + 3];
    a + 0x100 * b + 0x1_0000 * c + 0x100_0000 * d
  }

  function Load64(s: seq<Byte>, at: nat): U64
    requires at + 8 <= |s|
  {
    Load32(s, at) + TWO_32 * Load32(s, at + 4)
  }

  lemma LoadStore16(n: U16, s: seq<Byte>, at: nat)
    requires at + 2 <= |s| && s[at..at + 2] == Store16(n)
    ensures Load16(s, at) == n
  {
    assert s[at] == s[at..at + 2][0] && s[at + 1] == s[at..at + 2][1];
  }

  lemma LoadStore32(n: U32, s: seq<Byte>, at: nat)
    requires at + 4 <= |s| && s[at..at + 4] == Store32(n)
    ensures Load32(s, at) == n
  {
    var t := s[at..at + 4];
    assert s[at] == t[0] && s[at + 1] == t[1] && s[at + 2] == t[2] && s[at + 3] == t[3];
    Digits(n);
  }

  lemma Digits(n: U32)
    ensures n == n % 0x100 + 0x100 * (n / 0x100 % 0x100) + 0x1_0000 * (n / 0x1_0000 % 0x100)
                 + 0x100_0000 * (n / 0x100_0000)
  {
    var a, b := n / 0x100, n / 0x1_0000;
    assert n == 0x100 * a + n % 0x100 && a / 0x100 == b && b / 0x100 == n / 0x100_0000;
    assert a == 0x100 * b + a % 0x100;
  }

  lemma LoadStore64(n: U64, s: seq<Byte>, at: nat)
    requires at + 8 <= |s| && s[at..at + 8] == Store64(n)
    ensures Load64(s, at) == n
  {
    var t := s[at..at + 8];
    assert s[at..at + 4] == t[..4] == Store32(n % TWO_32);
    assert s[at + 4..at + 8] == t[4..] == Store32(n / TWO_32);
    LoadStore32(n % TWO_32, s, at);
    LoadStore32(n / TWO_32, s, at + 4);
  }

  /** Storing what was loaded gives the bytes back, so a loaded field loses nothing. */
  lemma StoreLoad16(s: seq<Byte>, at: nat)
    requires at + 2 <= |s|
    ensures Store16(Load16(s, at)) == s[at..at + 2]
  {
  }

  lemma StoreLoad32(s: seq<Byte>, at: nat)
    requires at + 4 <= |s|
    ensures Store32(Load32(s, at)) == s[at..at + 4]
  {
    var a: int, b: int, c: int, d: int := s[at], s[at + 1], s[at + 2], s[at + 3];
    var n := Load32(s, at);
    assert n == a + 0x100 * (b + 0x100 * (c + 0x100 * d));
    assert n / 0x100 == b + 0x100 * (c + 0x100 * d);
    assert n / 0x1_0000 == c + 0x100 * d;
    assert n / 0x100_0000 == d;
  }

  /** The number that some bytes stand for, the least significant first. */
  function LittleEndian(s: seq<Byte>): nat {
    if s == [] then 0 else s[0] as int + 0x100 * LittleEndian(s[1..])
  }

  lemma {:induction false} LoadIsLittleEndian(s: seq<Byte>, at: nat)
    ensures at + 2 <= |s| ==> Load16(s, at) == LittleEndian(s[at..at + 2])
    ensures at + 4 <= |s| ==> Load32(s, at) == LittleEndian(s[at..at + 4])
    ensures at + 8 <= |s| ==> Load64(s, at) == LittleEndian(s[at..at + 8])
  {
    if at + 2 <= |s| {
      FirstByte(s, at, at + 2);
      FirstByte(s, at + 1, at + 2);
    }
    if at + 4 <= |s| {
      Four(s, at, at + 4);
    }
    if at + 8 <= |s| {
      Four(s, at, at + 8);
      Four(s, at + 4, at + 8);
    }
  }

  lemma {:induction false} FirstByte(s: seq<Byte>, at: nat, end: nat)
    requires at < end <= |s|
    ensures LittleEndian(s[at..end]) == s[at] as int + 0x100 * LittleEndian(s[at + 1..end])
  {
    assert s[at..end][1..] == s[at + 1..end];
  }

  lemma {:induction false} Four(s: seq<Byte>, at: nat, end: nat)
    requires at + 4 <= end <= |s|
    ensures LittleEndian(s[at..end]) == Load32(s, at) + TWO_32 * LittleEndian(s[at + 4..end])
  {
    FirstByte(s, at, end);
    FirstByte(s, at + 1, end);
    FirstByte(s, at + 2, end);
    FirstByte(s, at + 3, end);
  }

  /** `k` zero bytes, as left behind by memset in structure padding. */
  function Zeros(k: nat): (s: seq<Byte>)
    ensures |s| == k
  {
    seq(k, _ => 0)
  }

  /** std::vector::resize on a byte vector: keep a prefix, zero-extend. */
  function Resize(s: seq<Byte>, n: nat): (r: seq<Byte>)
    ensures |r| == n
  {
    if n <= |s| then s[..n] else s + Zeros(n - |s|)
  }

  /** `bytes` written over the start of the buffer `s`. */
  function Overwrite(s: seq<Byte>, bytes: seq<Byte>): (r: seq<Byte>)
    requires |bytes| <= |s|
    ensures |r| == |s|
  {
    bytes + s[|bytes|..]
  }
}
