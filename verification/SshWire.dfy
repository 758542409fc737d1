/** OpenSSH wire encoding (section 5 of RFC 4251): src/ssh/sshKeys.ts. */
module SshWire {
  import opened Wrappers
  import opened Bytes

  // ---- strings ----

  /** None stands for the range error of writeUInt32BE. */
  function SshString(b: Bytes): Option<Bytes> {
    if |b| < TWO_32 then Some(U32(|b|) + b) else None
  }

  /** Several strings in a row. */
  function SshFields(fields: seq<Bytes>): Option<Bytes> {
    if fields == [] then Some([])
    else
      var first, more := SshString(fields[0]), SshFields(fields[1..]);
      if first.None? || more.None? then None else Some(first.value + more.value)
  }

  /** A reader of such a row: None if a string is cut off. */
  function ReadFields(b: Bytes): Option<seq<Bytes>>
    decreases |b|
  {
    if b == [] then Some([])
    else if |b| < 4 || 4 + Unsigned(b[..4]) > |b| then None
    else
      var n := Unsigned(b[..4]);
      var more := ReadFields(b[4 + n..]);
      if more.None? then None else Some([b[4..4 + n]] + more.value)
  }

  lemma {:induction false} FieldsRead(fields: seq<Bytes>)
    requires SshFields(fields).Some?
    ensures ReadFields(SshFields(fields).value) == Some(fields)
  {
    if fields != [] {
      var f, more := fields[0], SshFields(fields[1..]).value;
      var b := U32(|f|) + f + more;
      FieldsRead(fields[1..]);
      U32Value(|f|);
      hide Unsigned, U32, SshFields;
      assert b[..4] == U32(|f|) && b[4..4 + |f|] == f && b[4 + |f|..] == more;
      assert fields == [f] + fields[1..];
    }
  }

  lemma {:induction false} StringWritten(b: Bytes, n: nat)
    requires |b| >= 4 && n == Unsigned(b[..4]) && 4 + n <= |b|
    ensures SshString(b[4..4 + n]) == Some(b[..4 + n])
  {
    FourBytes(b[..4]);
    hide Unsigned, U32;
    assert b[..4 + n] == b[..4] + b[4..4 + n];
  }

  lemma {:induction false} ReadStep(b: Bytes) returns (n: nat)
    requires b != [] && ReadFields(b).Some?
    ensures |b| >= 4 && n == Unsigned(b[..4]) && 4 + n <= |b|
    ensures ReadFields(b[4 + n..]).Some? && ReadFields(b) == Some([b[4..4 + n]] + ReadFields(b[4 + n..]).value)
  {
    hide Unsigned;
    n := Unsigned(b[..4]);
  }

  lemma {:induction false} FieldsWritten(b: Bytes)
    requires ReadFields(b).Some?
    ensures SshFields(ReadFields(b).value) == Some(b)
    decreases |b|
  {
    if b != [] {
      hide *;
      var n := ReadStep(b);
      var rest := b[4 + n..];
      FieldsWritten(rest);
      StringWritten(b, n);
      assert b == b[..4 + n] + rest;
    }
  }

  /** Concatenated strings decode uniquely: reading and writing are inverse to each other. */
  lemma {:induction false} FieldsRoundTrip(fields: seq<Bytes>, b: Bytes)
    ensures SshFields(fields) == Some(b) <==> ReadFields(b) == Some(fields)
  {
    if SshFields(fields) == Some(b) { FieldsRead(fields); }
    if ReadFields(b) == Some(fields) { FieldsWritten(b); }
  }

  // ---- multiple precision integers ----

  function Strip(b: Bytes): Bytes {
    if |b| > 1 && b[0] == 0 then Strip(b[1..]) else b
  }

  /** Leading zeros go, the last byte stays; a zero byte comes in front of a high bit. */
  function MpintContents(b: Bytes): Bytes {
    var s := Strip(b);
    if s != [] && s[0] >= 0x80 then [0] + s else s
  }

  method SshMpint(bytes: Bytes) returns (r: Option<Bytes>)
    ensures r == SshString(MpintContents(bytes))
  {
    var i := 0;
    while i < |bytes| - 1 && bytes[i] == 0
      invariant 0 <= i <= |bytes| && (bytes != [] ==> i < |bytes|)
      invariant Strip(bytes) == Strip(bytes[i..])
    {
      assert bytes[i..][1..] == bytes[i + 1..];
      i := i + 1;
    }
    var b := bytes[i..];
    if b != [] && b[0] >= 0x80 { b := [0] + b; }
    r := SshString(b);
  }

  lemma {:induction false} StripValue(b: Bytes)
    ensures Unsigned(Strip(b)) == Unsigned(b)
    ensures |Strip(b)| > 1 ==> Strip(b)[0] != 0
    ensures b != [] ==> Strip(b) != []
  {
    if |b| > 1 && b[0] == 0 {
      assert b == [0] + b[1..];
      UnsignedCons(0, b[1..]);
      StripValue(b[1..]);
    }
  }

  /** The value is preserved: in two's complement the contents denote the input as a
      natural number. */
  lemma {:induction false} MpintValue(b: Bytes)
    ensures TwosComplement(MpintContents(b)) == Unsigned(b)
  {
    StripValue(b);
    UnsignedCons(0, Strip(b));
  }

  /** No byte string for the same number is shorter. */
  ghost predicate Shortest(c: Bytes) {
    forall s: Bytes :: TwosComplement(s) == TwosComplement(c) ==> |c| <= |s|
  }

  lemma {:induction false} NonNegativeBound(s: Bytes)
    requires TwosComplement(s) >= 0
    ensures s == [] || (s[0] < 128 && TwosComplement(s) == Unsigned(s) < 128 * Pow256(|s| - 1))
  {
    UnsignedBound(s);
    if s != [] && s[0] < 128 {
      assert s == [s[0]] + s[1..];
      UnsignedCons(s[0], s[1..]);
      UnsignedBound(s[1..]);
      Scale(s[0], 127, Pow256(|s| - 1));
    }
  }

  lemma {:induction false} Scale(a: nat, b: nat, p: nat)
    requires a <= b
    ensures a * p <= b * p
  {}

  /** The contents of a positive number have at least this value. */
  lemma {:induction false} ContentsLowerBound(b: Bytes)
    requires Unsigned(b) > 0
    ensures var c := MpintContents(b); c != [] && (|c| == 1 || Unsigned(b) >= 128 * Pow256(|c| - 2))
  {
    StripValue(b);
    var s := Strip(b);
    if |s| > 1 || s[0] >= 0x80 {
      assert s == [s[0]] + s[1..];
      UnsignedCons(s[0], s[1..]);
      if s[0] >= 0x80 {
        Scale(128, s[0], Pow256(|s| - 1));
      } else {
        Scale(1, s[0], Pow256(|s| - 1));
      }
    }
  }

  /** For every positive number the contents are the shortest possible. */
  lemma {:induction false} PositiveShortest(b: Bytes)
    requires Unsigned(b) > 0
    ensures Shortest(MpintContents(b))
  {
    var c := MpintContents(b);
    MpintValue(b);
    ContentsLowerBound(b);
    forall s: Bytes | TwosComplement(s) == TwosComplement(c) ensures |c| <= |s| {
      NonNegativeBound(s);
      if |c| > 1 && s != [] { Pow256Order(|c| - 2, |s| - 1); }
    }
  }

  /** Zero is different: section 5 of RFC 4251 stores it without any byte, the code with
      one. So the encoding is minimal exactly for positive numbers (and for no input at all). */
  lemma {:induction false} MpintMinimalIff(b: Bytes)
    ensures Shortest(MpintContents(b)) <==> Unsigned(b) > 0 || b == []
  {
    if Unsigned(b) > 0 {
      PositiveShortest(b);
    } else if b != [] {
      MpintValue(b);
      StripValue(b);
      var none: Bytes := [];
      assert TwosComplement(none) == TwosComplement(MpintContents(b)) && |MpintContents(b)| > |none|;
    }
  }

  // ---- coordinates of a fixed size ----

  /** At most `n` leading zeros are taken away. */
  function DropZeros(b: Bytes, n: nat): Bytes
    requires n <= |b|
  {
    if n > 0 && b[0] == 0 then DropZeros(b[1..], n - 1) else b
  }

  function Zeros(n: nat): (r: Bytes)
    ensures |r| == n
  {
    seq(n, i => 0)
  }

  /** None stands for the size error. */
  function PadLeft(b: Bytes, len: nat): Option<Bytes> {
    if |b| <= len then Some(Zeros(len - |b|) + b)
    else
      var stripped := DropZeros(b, |b| - len);
      if |stripped| == len then Some(stripped) else None
  }

  method PadLeftBytes(b: Bytes, len: nat) returns (r: Option<Bytes>)
    ensures r == PadLeft(b, len)
  {
    if |b| <= len { return Some(Zeros(len - |b|) + b); }
    var i := 0;
    while i < |b| - len && b[i] == 0
      invariant 0 <= i <= |b| - len
      invariant DropZeros(b, |b| - len) == DropZeros(b[i..], |b| - len - i)
    {
      assert b[i..][1..] == b[i + 1..];
      i := i + 1;
    }
    r := if |b[i..]| == len then Some(b[i..]) else None;
  }

  lemma {:induction false} DropZerosFacts(b: Bytes, n: nat)
    requires n <= |b|
    ensures var r := DropZeros(b, n);
            && Unsigned(r) == Unsigned(b)
            && |b| - n <= |r|
            && (|r| > |b| - n ==> r[0] != 0)
  {
    if n > 0 && b[0] == 0 {
      assert b == [0] + b[1..];
      UnsignedCons(0, b[1..]);
      DropZerosFacts(b[1..], n - 1);
    }
  }

  lemma {:induction false} ZerosInFront(n: nat, b: Bytes)
    ensures Unsigned(Zeros(n) + b) == Unsigned(b)
  {
    if n == 0 {
      assert Zeros(0) + b == b;
    } else {
      assert Zeros(n) + b == [0] + (Zeros(n - 1) + b);
      UnsignedCons(0, Zeros(n - 1) + b);
      ZerosInFront(n - 1, b);
    }
  }

  lemma {:induction false} PadKeepsValue(b: Bytes, len: nat)
    requires PadLeft(b, len).Some?
    ensures |PadLeft(b, len).value| == len && Unsigned(PadLeft(b, len).value) == Unsigned(b)
  {
    if |b| <= len {
      ZerosInFront(len - |b|, b);
    } else {
      DropZerosFacts(b, |b| - len);
    }
  }

  /** padLeft gives the same number in exactly `len` bytes, and fails exactly for numbers
      that do not fit. */
  lemma {:induction false} PadLeftExact(b: Bytes, len: nat)
    ensures PadLeft(b, len).Some? <==> Unsigned(b) < Pow256(len)
    ensures PadLeft(b, len).Some? ==> |PadLeft(b, len).value| == len && Unsigned(PadLeft(b, len).value) == Unsigned(b)
  {
    if PadLeft(b, len).Some? {
      PadKeepsValue(b, len);
      UnsignedBound(PadLeft(b, len).value);
    } else {
      var r := DropZeros(b, |b| - len);
      DropZerosFacts(b, |b| - len);
      assert r == [r[0]] + r[1..];
      UnsignedCons(r[0], r[1..]);
      Scale(1, r[0], Pow256(|r| - 1));
      Pow256Monotone(len, |r| - 1);
    }
  }

  // ---- padding of the private section ----

  /** The bytes 1, 2, 3, ... up to the next multiple of eight. */
  method Padding(length: nat) returns (pad: Bytes)
    ensures |pad| < 8 && (length + |pad|) % 8 == 0
    ensures forall i :: 0 <= i < |pad| ==> pad[i] == i + 1
  {
    var needed := (8 - length % 8) % 8;
    pad := [];
    for i := 0 to needed
      invariant |pad| == i && forall k :: 0 <= k < i ==> pad[k] == k + 1
    {
      pad := pad + [i + 1];
    }
  }
}
