/** Bytes, and the 32-bit integers that JavaScript's bit operators work on. */
module Bytes {
  type Byte = x: int | 0 <= x < 256

  type Bytes = seq<Byte>

  const TWO_31 := 0x8000_0000
  const TWO_32 := 0x1_0000_0000

  /** The unsigned 32-bit integer that `>>>` sees. */
  function ToUint32(x: int): (r: nat)
    ensures r < TWO_32
    ensures 0 <= x < TWO_32 ==> r == x
  {
    x % TWO_32
  }

  /** `(acc << 8) | b`: the shift drops the eight highest bits and leaves the lowest zero. */
  function PushByte(acc: int, b: Byte): (r: int)
    ensures -TWO_31 <= r < TWO_31
    ensures 0 <= acc * 256 + b < TWO_31 ==> r == acc * 256 + b
  {
    var m := (acc % 0x100_0000) * 256;
    (if m < TWO_31 then m else m - TWO_32) + b
  }

  /** The number a byte string denotes, most significant byte first. */
  function Unsigned(s: Bytes): nat {
    if s == [] then 0 else 256 * Unsigned(s[..|s| - 1]) + s[|s| - 1]
  }

  function Pow256(n: nat): (r: nat)
    ensures r > 0
  {
    if n == 0 then 1 else 256 * Pow256(n - 1)
  }

  /** The signed number a byte string denotes in two's complement. */
  function TwosComplement(s: Bytes): int {
    if s == [] then 0 else if s[0] < 128 then Unsigned(s) else Unsigned(s) - Pow256(|s|)
  }

  lemma {:induction false} UnsignedBound(s: Bytes)
    ensures Unsigned(s) < Pow256(|s|)
  {
    if s != [] { UnsignedBound(s[..|s| - 1]); }
  }

  lemma {:induction false} UnsignedCons(b: Byte, s: Bytes)
    ensures Unsigned([b] + s) == b * Pow256(|s|) + Unsigned(s)
  {
    if s == [] {
      assert ([b] + s)[..0] == [];
    } else {
      assert ([b] + s)[..|s|] == [b] + s[..|s| - 1];
      UnsignedCons(b, s[..|s| - 1]);
    }
  }

  lemma {:induction false} Pow256Monotone(m: nat, n: nat)
    requires m <= n
    ensures Pow256(m) <= Pow256(n)
  {
    if m < n { Pow256Monotone(m, n - 1); }
  }

  lemma {:induction false} Pow256Order(m: nat, n: nat)
    requires Pow256(m) < Pow256(n)
    ensures m < n
  {
    if n <= m { Pow256Monotone(n, m); }
  }

  /** buf.writeUInt32BE, for numbers it accepts. */
  function U32(n: nat): (r: Bytes)
    requires n < TWO_32
    ensures |r| == 4
  {
    [n / 0x100_0000, n / 0x1_0000 % 256, n / 0x100 % 256, n % 256]
  }

  lemma {:induction false} U32Value(n: nat)
    requires n < TWO_32
    ensures Unsigned(U32(n)) == n
  {
    FourBytes(U32(n));
    hide Unsigned;
    assert n / 0x1_0000 == n / 0x100_0000 * 256 + n / 0x1_0000 % 256;
    assert n / 0x100 == n / 0x1_0000 * 256 + n / 0x100 % 256;
  }

  lemma {:induction false} FourBytes(s: Bytes)
    requires |s| == 4
    ensures Unsigned(s) == s[0] * 0x100_0000 + s[1] * 0x1_0000 + s[2] * 0x100 + s[3] < TWO_32
    ensures U32(Unsigned(s)) == s
  {
    var s1, s2, s3 := s[..1], s[..2], s[..3];
    assert s1[..0] == [] && s2[..1] == s1 && s3[..2] == s2;
    assert Unsigned(s1) == s[0];
    assert Unsigned(s2) == 256 * Unsigned(s1) + s[1];
    assert Unsigned(s3) == 256 * Unsigned(s2) + s[2];
    assert Unsigned(s) == 256 * Unsigned(s3) + s[3];
    hide Unsigned;
    SplitWord(s[0], s[1], s[2], s[3]);
  }

  lemma {:induction false} SplitWord(a: Byte, b: Byte, c: Byte, d: Byte)
    ensures var n := a * 0x100_0000 + b * 0x1_0000 + c * 0x100 + d; n < TWO_32 && U32(n) == [a, b, c, d]
  {
    var n := a * 0x100_0000 + b * 0x1_0000 + c * 0x100 + d;
    assert n / 0x100 == a * 0x1_0000 + b * 0x100 + c;
    assert n / 0x1_0000 == a * 0x100 + b;
  }

  /** buf.subarray(start, end): negative positions count from the end; both are clamped. */
  function Subarray(b: Bytes, start: int, end: int): Bytes {
    var s, e := Clamp(start, |b|), Clamp(end, |b|);
    if s <= e then b[s..e] else []
  }

  function Clamp(i: int, n: nat): (r: nat)
    ensures r <= n
    ensures 0 <= i <= n ==> r == i
  {
    if i < 0 then (if i + n < 0 then 0 else i + n) else if i > n then n else i
  }

  /** Bytes from or to a negative position are counted from the end, and positions outside the
      buffer mean its ends. */
  lemma {:induction false} SubarrayEnds(b: Bytes, start: int, end: int)
    ensures -|b| <= start < 0 ==> Subarray(b, start, end) == Subarray(b, |b| + start, end)
    ensures -|b| <= end < 0 ==> Subarray(b, start, end) == Subarray(b, start, |b| + end)
    ensures start < -|b| ==> Subarray(b, start, end) == Subarray(b, 0, end)
    ensures end < -|b| ==> Subarray(b, start, end) == []
    ensures end > |b| ==> Subarray(b, start, end) == Subarray(b, start, |b|)
    ensures start >= |b| ==> Subarray(b, start, end) == []
  {}
}
