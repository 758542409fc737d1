/** DER headers as acme-server/src/server/crl.ts writes and reads them. The same length
    reader is repeated in acme-server/src/server/signer.ts, src/certs/signer.ts and
    src/certs/manualBuilder.ts. */
module Der {
  import opened Bytes

  // ---- writing ----

  /** The base-256 digits that encLen's loop collects: after the first turn the number is
      an unsigned 32-bit one. */
  function LenBytes(x: nat): (r: Bytes)
    ensures |r| <= 4 && (x < 0x100 ==> |r| <= 1) && (x < 0x1_0000 ==> |r| <= 2) && (x < 0x100_0000 ==> |r| <= 3)
  {
    if x == 0 then [] else LenBytes(ToUint32(x) / 256) + [x % 256]
  }

  function EncLen(n: nat): (r: Bytes)
    ensures 1 <= |r| <= 5
  {
    if n < 0x80 then [n] else [0x80 + |LenBytes(n)|] + LenBytes(n)
  }

  function Tag(t: Byte, body: Bytes): Bytes {
    [t] + EncLen(|body|) + body
  }

  function Concat(parts: seq<Bytes>): Bytes {
    if parts == [] then [] else Concat(parts[..|parts| - 1]) + parts[|parts| - 1]
  }

  method EncodeLength(n: nat) returns (r: Bytes)
    ensures r == EncLen(n)
  {
    if n < 0x80 { return [n]; }
    var bytes: Bytes := [];
    var x: nat := n;
    while x > 0
      invariant LenBytes(n) == LenBytes(x) + bytes
    {
      assert LenBytes(ToUint32(x) / 256) + [x % 256] + bytes == LenBytes(ToUint32(x) / 256) + ([x % 256] + bytes);
      bytes := [x % 256] + bytes;
      x := ToUint32(x) / 256;
    }
    r := [0x80 + |bytes|] + bytes;
  }

  // ---- reading ----

  /** `inRange` tells whether every byte looked at exists. */
  datatype Header = Header(length: int, headerLen: nat, inRange: bool)

  predicate Within(b: Bytes, i: int) {
    0 <= i < |b|
  }

  /** b[i] where a missing byte counts as zero, as `|` does. */
  function ByteOrZero(b: Bytes, i: int): Byte {
    if Within(b, i) then b[i] else 0
  }

  function Digits(b: Bytes, off: int, n: nat): int {
    if n == 0 then 0 else PushByte(Digits(b, off, n - 1), ByteOrZero(b, off + n))
  }

  /** A length header at `off`. A missing first byte reads as an empty long form. */
  function ReadLen(b: Bytes, off: int): Header {
    if !Within(b, off) then Header(0, 1, false)
    else if b[off] < 0x80 then Header(b[off], 1, true)
    else
      var n := b[off] - 0x80;
      Header(Digits(b, off, n), 1 + n, off + n < |b|)
  }

  function Skip(b: Bytes, off: int): int {
    var l := ReadLen(b, off + 1);
    off + 1 + l.headerLen + l.length
  }

  method ReadLength(b: Bytes, off: int) returns (h: Header)
    ensures h == ReadLen(b, off)
  {
    if !Within(b, off) { return Header(0, 1, false); }
    var first := b[off];
    if first < 0x80 { return Header(first, 1, true); }
    var n := first - 0x80;
    var len := 0;
    for i := 0 to n
      invariant len == Digits(b, off, i)
    {
      len := PushByte(len, ByteOrZero(b, off + i + 1));
    }
    h := Header(len, 1 + n, off + n < |b|);
  }

  // ---- reading inverts writing ----

  lemma {:induction false} LenBytesValue(x: nat)
    requires x < TWO_32
    ensures Unsigned(LenBytes(x)) == x
  {
    if x > 0 {
      LenBytesValue(x / 256);
      assert LenBytes(x)[..|LenBytes(x)| - 1] == LenBytes(x / 256);
    }
  }

  /** `b` holds `s` at position `i`. */
  predicate HoldsAt(b: Bytes, i: int, s: Bytes) {
    0 <= i <= i + |s| <= |b| && b[i..i + |s|] == s
  }

  lemma {:induction false} HoldsByte(b: Bytes, i: int, s: Bytes, k: nat)
    requires HoldsAt(b, i, s) && k < |s|
    ensures b[i + k] == s[k]
  {
    assert b[i..i + |s|][k] == b[i + k];
  }

  lemma {:induction false} HoldsPart(b: Bytes, i: int, s: Bytes, from: nat, to: nat)
    requires HoldsAt(b, i, s) && from <= to <= |s|
    ensures HoldsAt(b, i + from, s[from..to])
  {
    forall k | 0 <= k < to - from ensures b[i + from..i + to][k] == s[from..to][k] {
      HoldsByte(b, i, s, from + k);
    }
  }

  lemma {:induction false} HoldsConcat(b: Bytes, i: int, s: Bytes, t: Bytes)
    requires HoldsAt(b, i, s + t)
    ensures HoldsAt(b, i, s) && HoldsAt(b, i + |s|, t)
  {
    HoldsPart(b, i, s + t, 0, |s|);
    HoldsPart(b, i, s + t, |s|, |s + t|);
    assert (s + t)[0..|s|] == s && (s + t)[|s|..|s + t|] == t;
  }

  lemma {:induction false} DigitsRead(b: Bytes, off: int, s: Bytes)
    requires HoldsAt(b, off + 1, s) && Unsigned(s) < TWO_31
    ensures Digits(b, off, |s|) == Unsigned(s)
  {
    if s != [] {
      var init := s[..|s| - 1];
      HoldsPart(b, off + 1, s, 0, |s| - 1);
      assert s[0..|s| - 1] == init;
      DigitsRead(b, off, init);
      HoldsByte(b, off + 1, s, |s| - 1);
    }
  }

  /** What the shifts lose is a multiple of 2^32. */
  lemma {:induction false} PushedByte(acc: int, d: Byte) returns (lost: int)
    ensures acc * 256 + d == PushByte(acc, d) + lost * TWO_32
  {
    var m := (acc % 0x100_0000) * 256;
    lost := acc / 0x100_0000 + if m < TWO_31 then 0 else 1;
  }

  lemma {:induction false} DigitsWrap(b: Bytes, off: int, s: Bytes) returns (lost: int)
    requires HoldsAt(b, off + 1, s)
    ensures Unsigned(s) == Digits(b, off, |s|) + lost * TWO_32
  {
    if s == [] {
      lost := 0;
    } else {
      var init := s[..|s| - 1];
      HoldsPart(b, off + 1, s, 0, |s| - 1);
      assert s[0..|s| - 1] == init;
      var before := DigitsWrap(b, off, init);
      HoldsByte(b, off + 1, s, |s| - 1);
      var more := PushedByte(Digits(b, off, |s| - 1), s[|s| - 1]);
      lost := before * 256 + more;
    }
  }

  /** In any bytes, a first byte from 0x80 on announces that many length bytes; the length is
      the number they denote, as a signed 32-bit integer. */
  lemma {:induction false} LongLengthRead(b: Bytes, off: int, s: Bytes) returns (lost: int)
    requires |s| < 0x80 && HoldsAt(b, off, [0x80 + |s|] + s)
    ensures ReadLen(b, off).headerLen == 1 + |s| && ReadLen(b, off).inRange
    ensures -TWO_31 <= ReadLen(b, off).length < TWO_31 && ReadLen(b, off).length == Unsigned(s) - lost * TWO_32
  {
    HoldsConcat(b, off, [0x80 + |s|], s);
    HoldsByte(b, off, [0x80 + |s|], 0);
    lost := DigitsWrap(b, off, s);
  }

  /** A header is in range exactly if every one of its bytes exists. */
  lemma {:induction false} InRangeIff(b: Bytes, off: int)
    ensures var h := ReadLen(b, off); h.inRange <==> forall i :: off <= i < off + h.headerLen ==> Within(b, i)
  {
    var h := ReadLen(b, off);
    if forall i :: off <= i < off + h.headerLen ==> Within(b, i) {
      assert Within(b, off) && Within(b, off + h.headerLen - 1);
    }
  }

  lemma {:induction false} DigitsBounded(b: Bytes, off: int, n: nat)
    ensures Digits(b, off, n) < TWO_31
  {}

  lemma {:induction false} LongForm(n: nat)
    requires n >= 0x80
    ensures EncLen(n) == [0x80 + |LenBytes(n)|] + LenBytes(n) && 1 <= |LenBytes(n)| <= 4
  {}

  /** Wherever it stands, a written length is read back, with the exact header size, if and
      only if it is below 2^31; and every byte looked at exists. */
  lemma {:induction false} LengthRoundTrip(b: Bytes, off: int, n: nat)
    requires HoldsAt(b, off, EncLen(n))
    ensures ReadLen(b, off).length == n <==> n < TWO_31
    ensures ReadLen(b, off).headerLen == |EncLen(n)| && ReadLen(b, off).inRange
  {
    HoldsByte(b, off, EncLen(n), 0);
    if n >= 0x80 {
      LongForm(n);
      hide EncLen, LenBytes;
      HoldsConcat(b, off, [0x80 + |LenBytes(n)|], LenBytes(n));
      DigitsBounded(b, off, |LenBytes(n)|);
      if n < TWO_31 {
        LenBytesValue(n);
        DigitsRead(b, off, LenBytes(n));
      }
    }
  }

  /** The long form has no leading zero (below 2^32), and no byte string for the same number
      is shorter. */
  lemma {:induction false} LengthMinimal(n: nat, s: Bytes)
    requires 0x80 <= n < TWO_32
    ensures LenBytes(n) != [] && LenBytes(n)[0] != 0
    ensures Unsigned(s) == n ==> |LenBytes(n)| <= |s|
  {
    NoLeadingZero(n);
    if Unsigned(s) == n {
      LenBytesValue(n);
      UnsignedBound(s);
      LeadingDigit(LenBytes(n));
      Pow256Order(|LenBytes(n)| - 1, |s|);
    }
  }

  lemma {:induction false} NoLeadingZero(n: nat)
    requires 0 < n < TWO_32
    ensures LenBytes(n) != [] && LenBytes(n)[0] != 0
  {
    if n >= 256 { NoLeadingZero(n / 256); }
  }

  lemma {:induction false} LeadingDigit(s: Bytes)
    requires s != [] && s[0] != 0
    ensures Unsigned(s) >= Pow256(|s| - 1)
  {
    assert s == [s[0]] + s[1..];
    UnsignedCons(s[0], s[1..]);
    AtLeast(s[0], Pow256(|s| - 1));
  }

  lemma {:induction false} AtLeast(a: nat, p: nat)
    requires a >= 1
    ensures a * p >= p
  {}

  /** skip lands exactly past any written value, if and only if its body is shorter than
      2^31 bytes. */
  lemma {:induction false} SkipTag(b: Bytes, off: int, t: Byte, body: Bytes)
    requires HoldsAt(b, off, Tag(t, body))
    ensures Skip(b, off) == off + |Tag(t, body)| <==> |body| < TWO_31
    ensures ReadLen(b, off + 1).inRange
  {
    TagParts(b, off, t, body);
    LengthRoundTrip(b, off + 1, |body|);
  }

  lemma {:induction false} TagParts(b: Bytes, off: int, t: Byte, body: Bytes)
    requires HoldsAt(b, off, Tag(t, body))
    ensures Within(b, off) && b[off] == t
    ensures HoldsAt(b, off + 1, EncLen(|body|))
    ensures HoldsAt(b, off + 1 + |EncLen(|body|)|, body)
  {
    HoldsByte(b, off, Tag(t, body), 0);
    HoldsConcat(b, off, [t] + EncLen(|body|), body);
    HoldsConcat(b, off, [t], EncLen(|body|));
  }

  /** The header and body of a written value, as the parsers find them. */
  lemma {:induction false} OpenTag(b: Bytes, off: int, t: Byte, body: Bytes)
    requires HoldsAt(b, off, Tag(t, body)) && |body| < TWO_31
    ensures Within(b, off) && b[off] == t
    ensures var l := ReadLen(b, off + 1);
            && l.inRange && l.length == |body|
            && off + 1 + l.headerLen + l.length == off + |Tag(t, body)|
            && HoldsAt(b, off + 1 + l.headerLen, body)
  {
    TagParts(b, off, t, body);
    LengthRoundTrip(b, off + 1, |body|);
  }
}
