/** An independent reader of DER values, written from section 8.1 of X.690 and not from the
    repository: lengths are unbounded numbers and nothing may be missing. */
module DerReader {
  import opened Wrappers
  import opened Bytes
  import opened Der

  datatype Tlv = Tlv(tag: Byte, body: Bytes)

  function Encode(v: Tlv): Bytes {
    Tag(v.tag, v.body)
  }

  function EncodeAll(vs: seq<Tlv>): Bytes {
    if vs == [] then [] else Encode(vs[0]) + EncodeAll(vs[1..])
  }

  datatype Length = Length(value: nat, size: nat)

  /** The length octets at the start of `b`. */
  function ReadLength(b: Bytes): (r: Option<Length>)
    ensures r.Some? ==> 0 < r.value.size <= |b|
  {
    if b == [] then None
    else if b[0] < 0x80 then Some(Length(b[0], 1))
    else
      var n := b[0] - 0x80;
      if n == 0 || 1 + n > |b| then None else Some(Length(Unsigned(b[1..1 + n]), 1 + n))
  }

  datatype Read = Read(value: Tlv, rest: Bytes)

  function ReadOne(b: Bytes): (r: Option<Read>)
    ensures r.Some? ==> |r.value.rest| < |b|
  {
    if b == [] then None
    else
      match ReadLength(b[1..])
      case None => None
      case Some(l) =>
        if 1 + l.size + l.value > |b| then None
        else Some(Read(Tlv(b[0], b[1 + l.size..1 + l.size + l.value]), b[1 + l.size + l.value..]))
  }

  /** The values that make up all of `b`. */
  function ReadAll(b: Bytes): Option<seq<Tlv>>
    decreases |b|
  {
    if b == [] then Some([])
    else
      match ReadOne(b)
      case None => None
      case Some(first) =>
        match ReadAll(first.rest)
        case None => None
        case Some(more) => Some([first.value] + more)
  }

  lemma {:induction false} LengthReads(n: nat, rest: Bytes)
    requires n < TWO_32
    ensures ReadLength(EncLen(n) + rest) == Some(Length(n, |EncLen(n)|))
  {
    var b := EncLen(n) + rest;
    if n >= 0x80 {
      LongForm(n);
      LenBytesValue(n);
      hide EncLen, LenBytes;
      assert b[0] == 0x80 + |LenBytes(n)|;
      assert b[1..1 + |LenBytes(n)|] == LenBytes(n);
    }
  }

  lemma {:induction false} OneReads(v: Tlv, rest: Bytes)
    requires |v.body| < TWO_32
    ensures ReadOne(Encode(v) + rest) == Some(Read(v, rest))
  {
    hide EncLen, ReadLength;
    var b := Encode(v) + rest;
    var header := EncLen(|v.body|);
    assert b[1..] == header + (v.body + rest);
    LengthReads(|v.body|, v.body + rest);
    assert b == ([v.tag] + header) + v.body + rest;
    assert b[1 + |header|..1 + |header| + |v.body|] == v.body;
    assert b[1 + |header| + |v.body|..] == rest;
  }

  /** What the printer wrote is read back, value by value. */
  lemma {:induction false} AllReads(vs: seq<Tlv>)
    requires |EncodeAll(vs)| < TWO_32
    ensures ReadAll(EncodeAll(vs)) == Some(vs)
  {
    if vs != [] {
      BodyShorter(vs[0]);
      OneReads(vs[0], EncodeAll(vs[1..]));
      AllReads(vs[1..]);
      hide ReadOne, Encode;
      assert EncodeAll(vs) != [];
      assert vs == [vs[0]] + vs[1..];
    }
  }

  lemma {:induction false} BodyShorter(v: Tlv)
    ensures |v.body| < |Encode(v)|
  {}

  /** A body that is itself a row of values. */
  lemma {:induction false} BodyReads(t: Byte, vs: seq<Tlv>)
    requires |Encode(Tlv(t, EncodeAll(vs)))| < TWO_32
    ensures ReadAll(EncodeAll(vs)) == Some(vs)
  {
    BodyShorter(Tlv(t, EncodeAll(vs)));
    AllReads(vs);
  }
}
