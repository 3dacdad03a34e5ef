/** Bytes, fixed-width words and their big-endian wire form, shared by every codec. */
module Wire {

  type byte = x: int | 0 <= x < 0x100
  type u16 = x: int | 0 <= x < 0x1_0000
  type u32 = x: int | 0 <= x < 0x1_0000_0000

  /** A point on the monotonic clock, in nanoseconds. */
  type Time = nat

  const SECOND: nat := 1_000_000_000
  const MODULUS: nat := 0x1_0000_0000

  datatype Option<+T> = None | Some(value: T)

  lemma {:induction false} Associate<T>(a: seq<T>, b: seq<T>, c: seq<T>)
    ensures a + (b + c) == a + b + c
  {
  }

  function Min(a: int, b: int): int {
    if a <= b then a else b
  }

  /** Reduction of an integer to 32 bits: `wrapping_add` is `Wrap(a + b)`. */
  function Wrap(x: int): u32 {
    x % 0x1_0000_0000
  }

  /** `wrapping_sub` on 32-bit words. */
  function WrapSub(a: u32, b: u32): u32 {
    Wrap(a - b)
  }

  /** Numbers a multiple of 2^32 apart wrap to the same word. */
  lemma {:induction false} WrapShift(x: int, y: int, k: int)
    requires y == x + k * 0x1_0000_0000
    ensures Wrap(x) == Wrap(y)
  {
    assert y == Wrap(x) + (x / 0x1_0000_0000 + k) * 0x1_0000_0000;
  }

  lemma {:induction false} WrapSum(a: int, b: int)
    ensures Wrap(Wrap(a) + b) == Wrap(a + b)
  {
    WrapShift(a + b, Wrap(a) + b, -(a / 0x1_0000_0000));
  }

  lemma {:induction false} WrapDifference(a: int, b: int)
    ensures WrapSub(Wrap(a), Wrap(b)) == Wrap(a - b)
  {
    WrapShift(a - b, Wrap(a) - Wrap(b), b / 0x1_0000_0000 - a / 0x1_0000_0000);
  }

  /** Reducing a natural number takes away a multiple of 2^32. */
  lemma {:induction false} WrapCut(n: nat)
    ensures Wrap(n) <= n && n - Wrap(n) == n / 0x1_0000_0000 * 0x1_0000_0000
  {
  }

  lemma {:induction false} WrapSmall(n: u32)
    ensures Wrap(n) == n
  {
  }

  lemma {:induction false} WrapZero()
    ensures Wrap(0) == 0
  {
  }

  /** Two words are equal exactly when their wrapped difference is zero. */
  lemma {:induction false} WrapSubZero(a: u32, b: u32)
    ensures WrapSub(a, b) == 0 <==> a == b
  {
  }

  function PutU16(v: u16): (b: seq<byte>)
    ensures |b| == 2
  {
    [v / 0x100, v % 0x100]
  }

  function GetU16(s: seq<byte>, i: nat): u16
    requires i + 2 <= |s|
  {
    var hi: int, lo: int := s[i], s[i + 1];
    0x100 * hi + lo
  }

  function PutU32(v: u32): (b: seq<byte>)
    ensures |b| == 4
  {
    PutU16(v / 0x1_0000) + PutU16(v % 0x1_0000)
  }

  function GetU32(s: seq<byte>, i: nat): u32
    requires i + 4 <= |s|
  {
    var hi: int, lo: int := GetU16(s, i), GetU16(s, i + 2);
    0x1_0000 * hi + lo
  }

  /** Network byte order: the most significant byte comes first. */
  lemma {:induction false} NetworkOrder()
    ensures PutU16(0x1234) == [0x12, 0x34] && PutU32(0x1234_5678) == [0x12, 0x34, 0x56, 0x78]
  {
  }

  /** A 16-bit word written anywhere in a buffer reads back as itself. */
  lemma {:induction false} U16RoundTrip(s: seq<byte>, i: nat, v: u16)
    requires i + 2 <= |s| && s[i..i + 2] == PutU16(v)
    ensures GetU16(s, i) == v
  {
    assert s[i] == s[i..i + 2][0] && s[i + 1] == s[i..i + 2][1];
  }

  /** A 32-bit word written anywhere in a buffer reads back as itself. */
  lemma {:induction false} U32RoundTrip(s: seq<byte>, i: nat, v: u32)
    requires i + 4 <= |s| && s[i..i + 4] == PutU32(v)
    ensures GetU32(s, i) == v
  {
    assert s[i..i + 2] == s[i..i + 4][..2] == PutU16(v / 0x1_0000);
    assert s[i + 2..i + 4] == s[i..i + 4][2..] == PutU16(v % 0x1_0000);
    U16RoundTrip(s, i, v / 0x1_0000);
    U16RoundTrip(s, i + 2, v % 0x1_0000);
  }
}
