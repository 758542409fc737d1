/** Parsers that walk DER by hand: caSubjectDer (acme-server/src/server/crl.ts), walkCsr
    (acme-server/src/server/signer.ts) and spkiSubjectPublicKeyBits (src/certs/signer.ts and
    src/certs/manualBuilder.ts). */
module DerWalk {
  import opened Wrappers
  import opened Bytes
  import opened Der
  import opened Oid

  datatype WalkError =
    | OuterExpected
    | TbsExpected
    | SpkiExpected
    | SigAlgExpected
    | OidExpected
    | BitStringExpected
    | UnusedBits

  /** A missing byte has no tag. */
  predicate HasTag(b: Bytes, i: int, t: Byte) {
    Within(b, i) && b[i] == t
  }

  /** Where the contents of the value at i start. */
  function BodyAt(b: Bytes, i: int): int {
    i + 1 + ReadLen(b, i + 1).headerLen
  }

  /** The lengths at these positions are read without looking past the end. */
  ghost predicate ReadInside(b: Bytes, positions: seq<int>) {
    forall i :: 0 <= i < |positions| ==> ReadLen(b, positions[i] + 1).inRange
  }

  /** `s` is one DER value. */
  ghost predicate IsValue(s: Bytes) {
    exists t, body :: IsTagged(s, t, body)
  }

  predicate IsTagged(s: Bytes, t: Byte, body: Bytes) {
    s == Tag(t, body)
  }

  // ---- the subject of a certificate ----

  /** Positions of n values in a row. */
  function ValuesFrom(b: Bytes, off: int, n: nat): (r: seq<int>)
    ensures |r| == n
    decreases n
  {
    if n == 0 then [] else [off] + ValuesFrom(b, Skip(b, off), n - 1)
  }

  /** Positions of serial, signature algorithm, issuer, validity and subject; the optional
      version in front of them is passed over. */
  function CertFields(der: Bytes, first: int): seq<int> {
    ValuesFrom(der, if HasTag(der, first, 0xa0) then Skip(der, first) else first, 5)
  }

  function CaSubject(der: Bytes): Result<Bytes, WalkError> {
    if !HasTag(der, 0, 0x30) then Err(OuterExpected)
    else if !HasTag(der, BodyAt(der, 0), 0x30) then Err(TbsExpected)
    else
      var subject := CertFields(der, BodyAt(der, BodyAt(der, 0)))[4];
      Ok(Subarray(der, subject, Skip(der, subject)))
  }

  method CaSubjectDer(der: Bytes) returns (r: Result<Bytes, WalkError>)
    ensures r == CaSubject(der)
  {
    hide ReadLen, Subarray, DerToOid, Within, ValuesFrom;
    var p: int := 0;
    if !HasTag(der, p, 0x30) { return Err(OuterExpected); }
    p := p + 1;
    var outer := ReadLength(der, p);
    p := p + outer.headerLen;
    if !HasTag(der, p, 0x30) { return Err(TbsExpected); }
    p := p + 1;
    var tbs := ReadLength(der, p);
    p := p + tbs.headerLen;
    var first := p;
    if HasTag(der, first, 0xa0) {
      var l := ReadLength(der, first + 1);
      first := first + 1 + l.headerLen + l.length;
    }
    var sigAlg := Skip(der, first);
    var issuer := Skip(der, sigAlg);
    var validity := Skip(der, issuer);
    var subjStart := Skip(der, validity);
    var subj := ReadLength(der, subjStart + 1);
    var subjEnd := subjStart + 1 + subj.headerLen + subj.length;
    FiveValues(der, first);
    r := Ok(Subarray(der, subjStart, subjEnd));
  }

  lemma {:induction false} FiveValues(der: Bytes, first: int)
    ensures ValuesFrom(der, first, 5) ==
            [first, Skip(der, first), Skip(der, Skip(der, first)), Skip(der, Skip(der, Skip(der, first))),
             Skip(der, Skip(der, Skip(der, Skip(der, first))))]
  {
    var b := Skip(der, first);
    var c := Skip(der, b);
    var d := Skip(der, c);
    var e := Skip(der, d);
    assert ValuesFrom(der, e, 1) == [e] + ValuesFrom(der, Skip(der, e), 0);
    assert ValuesFrom(der, d, 2) == [d] + ValuesFrom(der, e, 1);
    assert ValuesFrom(der, c, 3) == [c] + ValuesFrom(der, d, 2);
    assert ValuesFrom(der, b, 4) == [b] + ValuesFrom(der, c, 3);
  }

  /** Passing over one well-formed value. */
  lemma {:induction false} SkipValue(b: Bytes, off: int, s: Bytes)
    requires HoldsAt(b, off, s) && IsValue(s) && |b| < TWO_31
    ensures Skip(b, off) == off + |s| && ReadLen(b, off + 1).inRange && Within(b, off) && b[off] == s[0]
  {
    var t, body :| IsTagged(s, t, body);
    SkipTag(b, off, t, body);
    HoldsByte(b, off, s, 0);
  }

  /** A certificate: `version` is the optional [0] field, `rest` what follows the subject,
      `trailer` what follows the TBSCertificate. */
  function CertDer(version: Bytes, fields: seq<Bytes>, rest: Bytes, trailer: Bytes): Bytes {
    Tag(0x30, Tag(0x30, version + (Concat(fields) + rest)) + trailer)
  }

  lemma {:induction false} ConcatFirst(parts: seq<Bytes>)
    requires parts != []
    ensures Concat(parts) == parts[0] + Concat(parts[1..])
  {
    var init, last := parts[..|parts| - 1], parts[|parts| - 1];
    if |parts| == 1 {
      assert init == [] && parts[1..] == [];
    } else {
      ConcatFirst(init);
      var tail := parts[1..];
      assert init[1..] == tail[..|tail| - 1] && tail[|tail| - 1] == last;
      assert Concat(tail) == Concat(init[1..]) + last;
    }
  }

  /** The walk meets each of the fields where it stands. */
  lemma {:induction false} ValuesMet(b: Bytes, off: int, fields: seq<Bytes>)
    requires HoldsAt(b, off, Concat(fields)) && |b| < TWO_31
    requires forall i :: 0 <= i < |fields| ==> IsValue(fields[i])
    ensures var at := ValuesFrom(b, off, |fields|);
            ReadInside(b, at) &&
            forall i :: 0 <= i < |fields| ==> HoldsAt(b, at[i], fields[i]) && Skip(b, at[i]) == at[i] + |fields[i]|
    decreases |fields|
  {
    hide HoldsAt, Skip, ReadLen, Concat, IsValue;
    if fields != [] {
      ConcatFirst(fields);
      HoldsConcat(b, off, fields[0], Concat(fields[1..]));
      SkipValue(b, off, fields[0]);
      ValuesMet(b, off + |fields[0]|, fields[1..]);
      var rest := ValuesFrom(b, off + |fields[0]|, |fields| - 1);
      assert ValuesFrom(b, off, |fields|) == [off] + rest;
      forall i | 0 <= i < |fields|
        ensures var at := ([off] + rest)[i];
                HoldsAt(b, at, fields[i]) && Skip(b, at) == at + |fields[i]| && ReadLen(b, at + 1).inRange
      {
        if i > 0 { assert fields[1..][i - 1] == fields[i] && ([off] + rest)[i] == rest[i - 1]; }
      }
    }
  }

  lemma {:induction false} Enter(b: Bytes, off: int, t: Byte, body: Bytes)
    requires HoldsAt(b, off, Tag(t, body)) && |b| < TWO_31
    ensures HasTag(b, off, t) && HoldsAt(b, BodyAt(b, off), body) && ReadLen(b, off + 1).inRange
    ensures Skip(b, off) == off + |Tag(t, body)| == BodyAt(b, off) + |body| && ReadLen(b, off + 1).length == |body|
  {
    OpenTag(b, off, t, body);
  }

  lemma {:induction false} Slice(b: Bytes, off: int, s: Bytes)
    requires HoldsAt(b, off, s)
    ensures Subarray(b, off, off + |s|) == s
  {}

  lemma {:induction false} Whole(b: Bytes)
    ensures HoldsAt(b, 0, b)
  {}

  /** For every well-formed certificate, with or without version, caSubjectDer returns the
      bytes of the subject and reads no length past the end. */
  lemma {:induction false} SubjectExtracted(version: Bytes, fields: seq<Bytes>, rest: Bytes, trailer: Bytes)
    requires |fields| == 5 && (forall i :: 0 <= i < |fields| ==> IsValue(fields[i]))
    requires version == [] || (IsValue(version) && version[0] == 0xa0)
    requires fields[0] != [] && fields[0][0] != 0xa0
    requires |CertDer(version, fields, rest, trailer)| < TWO_31
    ensures var der := CertDer(version, fields, rest, trailer);
            var tbs := BodyAt(der, 0);
            && CaSubject(der) == Ok(fields[4])
            && ReadInside(der, [0, tbs] + CertFields(der, BodyAt(der, tbs)))
            && (version != [] ==> ReadInside(der, [BodyAt(der, tbs)]))
  {
    var der := CertDer(version, fields, rest, trailer);
    var inner := version + (Concat(fields) + rest);
    hide Tag, ReadLen, Concat, IsValue, HoldsAt, Skip, BodyAt, Subarray;
    Whole(der);
    Enter(der, 0, 0x30, Tag(0x30, inner) + trailer);
    var tbs := BodyAt(der, 0);
    HoldsConcat(der, tbs, Tag(0x30, inner), trailer);
    Enter(der, tbs, 0x30, inner);
    var first := BodyAt(der, tbs);
    HoldsConcat(der, first, version, Concat(fields) + rest);
    HoldsConcat(der, first + |version|, Concat(fields), rest);
    ValuesMet(der, first + |version|, fields);
    VersionPassed(der, first, version, fields);
    var at := ValuesFrom(der, first + |version|, 5);
    Slice(der, at[4], fields[4]);
  }

  lemma {:induction false} VersionPassed(der: Bytes, first: int, version: Bytes, fields: seq<Bytes>)
    requires |der| < TWO_31 && |fields| == 5 && IsValue(fields[0]) && fields[0] != [] && fields[0][0] != 0xa0
    requires version == [] || (IsValue(version) && version[0] == 0xa0)
    requires HoldsAt(der, first, version) && HoldsAt(der, first + |version|, Concat(fields))
    ensures CertFields(der, first) == ValuesFrom(der, first + |version|, 5)
    ensures version != [] ==> ReadLen(der, first + 1).inRange
  {
    if version == [] {
      ConcatFirst(fields);
      HoldsConcat(der, first, fields[0], Concat(fields[1..]));
      SkipValue(der, first, fields[0]);
    } else {
      SkipValue(der, first, version);
    }
  }

  // ---- a certification request ----

  datatype CsrParts = CsrParts(tbs: Bytes, spki: Bytes, sigAlgOid: Option<seq<int>>, signature: Bytes)

  /** Where the walk finds the parts. */
  function TbsAt(der: Bytes): int {
    BodyAt(der, 0)
  }

  function SpkiAt(der: Bytes): int {
    Skip(der, Skip(der, BodyAt(der, TbsAt(der))))
  }

  function SigAlgAt(der: Bytes): int {
    Skip(der, TbsAt(der))
  }

  function OidAt(der: Bytes): int {
    BodyAt(der, SigAlgAt(der))
  }

  function SignatureAt(der: Bytes): int {
    Skip(der, SigAlgAt(der))
  }

  /** The contents of a BIT STRING without its first byte, which must say that no bits are unused. */
  function BitsAt(der: Bytes, i: int): Result<Bytes, WalkError> {
    if !HasTag(der, i, 0x03) then Err(BitStringExpected)
    else if !HasTag(der, BodyAt(der, i), 0) then Err(UnusedBits)
    else Ok(Subarray(der, BodyAt(der, i) + 1, BodyAt(der, i) + 1 + ReadLen(der, i + 1).length - 1))
  }

  function CsrOf(der: Bytes): Result<CsrParts, WalkError> {
    if !HasTag(der, 0, 0x30) then Err(OuterExpected)
    else if !HasTag(der, TbsAt(der), 0x30) then Err(TbsExpected)
    else if !HasTag(der, SpkiAt(der), 0x30) then Err(SpkiExpected)
    else if !HasTag(der, SigAlgAt(der), 0x30) then Err(SigAlgExpected)
    else if !HasTag(der, OidAt(der), 0x06) then Err(OidExpected)
    else
      var bits := BitsAt(der, SignatureAt(der));
      if bits.Err? then Err(bits.error)
      else
        Ok(CsrParts(Subarray(der, TbsAt(der), SigAlgAt(der)),
                    Subarray(der, SpkiAt(der), Skip(der, SpkiAt(der))),
                    DerToOid(Subarray(der, BodyAt(der, OidAt(der)), Skip(der, OidAt(der)))),
                    bits.value))
  }

  method WalkCsr(der: Bytes) returns (r: Result<CsrParts, WalkError>)
    ensures r == CsrOf(der)
  {
    hide ReadLen, Subarray, DerToOid, Within, ValuesFrom;
    var p: int := 0;
    if !HasTag(der, p, 0x30) { return Err(OuterExpected); }
    p := p + 1;
    var outer := ReadLength(der, p);
    p := p + outer.headerLen;
    var tbsStart := p;
    if !HasTag(der, p, 0x30) { return Err(TbsExpected); }
    p := p + 1;
    var tbsLen := ReadLength(der, p);
    p := p + tbsLen.headerLen;
    var tbsBodyEnd := p + tbsLen.length;
    var tbs := Subarray(der, tbsStart, tbsBodyEnd);
    p := Skip(der, p);
    p := Skip(der, p);
    var spkiStart := p;
    if !HasTag(der, p, 0x30) { return Err(SpkiExpected); }
    p := p + 1;
    var spkiLen := ReadLength(der, p);
    p := p + spkiLen.headerLen;
    var spki := Subarray(der, spkiStart, p + spkiLen.length);
    p := tbsBodyEnd;
    if !HasTag(der, p, 0x30) { return Err(SigAlgExpected); }
    p := p + 1;
    var sigAlgLen := ReadLength(der, p);
    p := p + sigAlgLen.headerLen;
    var sigAlgEnd := p + sigAlgLen.length;
    if !HasTag(der, p, 0x06) { return Err(OidExpected); }
    p := p + 1;
    var oidLen := ReadLength(der, p);
    p := p + oidLen.headerLen;
    var oid := DecodeOid(Subarray(der, p, p + oidLen.length));
    p := sigAlgEnd;
    if !HasTag(der, p, 0x03) { return Err(BitStringExpected); }
    p := p + 1;
    var bsLen := ReadLength(der, p);
    p := p + bsLen.headerLen;
    if !HasTag(der, p, 0) { return Err(UnusedBits); }
    p := p + 1;
    r := Ok(CsrParts(tbs, spki, oid, Subarray(der, p, p + bsLen.length - 1)));
  }

  lemma {:induction false} BitsExtracted(b: Bytes, i: int, bits: Bytes)
    requires HoldsAt(b, i, Tag(0x03, [0] + bits)) && |b| < TWO_31
    ensures BitsAt(b, i) == Ok(bits) && ReadLen(b, i + 1).inRange
  {
    Enter(b, i, 0x03, [0] + bits);
    HoldsByte(b, BodyAt(b, i), [0] + bits, 0);
    HoldsConcat(b, BodyAt(b, i), [0], bits);
    Slice(b, BodyAt(b, i) + 1, bits);
  }

  function CsrTbs(version: Bytes, subject: Bytes, spki: Bytes, attributes: Bytes): Bytes {
    Tag(0x30, version + (subject + (Tag(0x30, spki) + attributes)))
  }

  function CsrDer(tbs: Bytes, oid: Bytes, params: Bytes, signature: Bytes): Bytes {
    Tag(0x30, tbs + (Tag(0x30, Tag(0x06, oid) + params) + Tag(0x03, [0] + signature)))
  }

  /** For every well-formed request, walkCsr returns exactly the bytes that were signed, the
      key, the algorithm and the signature, and reads no length past the end. */
  lemma {:induction false} CsrExtracted(version: Bytes, subject: Bytes, spki: Bytes, attributes: Bytes,
                                        oid: Bytes, params: Bytes, signature: Bytes)
    requires IsValue(version) && IsValue(subject)
    requires |CsrDer(CsrTbs(version, subject, spki, attributes), oid, params, signature)| < TWO_31
    ensures var tbs := CsrTbs(version, subject, spki, attributes);
            var der := CsrDer(tbs, oid, params, signature);
            && CsrOf(der) == Ok(CsrParts(tbs, Tag(0x30, spki), DerToOid(oid), signature))
            && ReadInside(der, [0, SigAlgAt(der)])
            && ReadInside(der, [TbsAt(der), BodyAt(der, TbsAt(der)), Skip(der, BodyAt(der, TbsAt(der)))])
            && ReadInside(der, [SpkiAt(der), OidAt(der), SignatureAt(der)])
  {
    var tbs := CsrTbs(version, subject, spki, attributes);
    var der := CsrDer(tbs, oid, params, signature);
    hide *;
    TbsIsValue(version, subject, spki, attributes);
    CsrLayout(tbs, oid, params, signature, der);
    TbsLayout(der, TbsAt(der), version, subject, spki, attributes);
    CsrPartsFound(der, tbs, spki, oid, signature);
  }

  lemma {:induction false} TbsIsValue(version: Bytes, subject: Bytes, spki: Bytes, attributes: Bytes)
    ensures IsValue(CsrTbs(version, subject, spki, attributes))
  {
    hide Tag;
    assert IsTagged(CsrTbs(version, subject, spki, attributes), 0x30, version + (subject + (Tag(0x30, spki) + attributes)));
  }

  /** The three parts of the outer sequence. */
  lemma {:induction false} CsrLayout(tbs: Bytes, oid: Bytes, params: Bytes, signature: Bytes, der: Bytes)
    requires der == CsrDer(tbs, oid, params, signature) && |der| < TWO_31 && IsValue(tbs)
    ensures HasTag(der, 0, 0x30) && HasTag(der, SigAlgAt(der), 0x30) && ReadInside(der, [0, SigAlgAt(der)])
    ensures HoldsAt(der, TbsAt(der), tbs) && SigAlgAt(der) == TbsAt(der) + |tbs|
    ensures HoldsAt(der, OidAt(der), Tag(0x06, oid))
    ensures HoldsAt(der, SignatureAt(der), Tag(0x03, [0] + signature))
  {
    OuterLayout(der, tbs, Tag(0x06, oid) + params, Tag(0x03, [0] + signature));
    hide Tag, ReadLen, IsValue, HoldsAt, HasTag, Skip, BodyAt;
    HoldsConcat(der, OidAt(der), Tag(0x06, oid), params);
  }

  lemma {:induction false} OuterLayout(der: Bytes, tbs: Bytes, alg: Bytes, bits: Bytes)
    requires der == Tag(0x30, tbs + (Tag(0x30, alg) + bits)) && |der| < TWO_31 && IsValue(tbs)
    ensures HasTag(der, 0, 0x30) && HasTag(der, SigAlgAt(der), 0x30) && ReadInside(der, [0, SigAlgAt(der)])
    ensures HoldsAt(der, TbsAt(der), tbs) && SigAlgAt(der) == TbsAt(der) + |tbs|
    ensures HoldsAt(der, OidAt(der), alg) && HoldsAt(der, SignatureAt(der), bits)
  {
    hide Tag, ReadLen, IsValue, HoldsAt, HasTag, Skip, BodyAt;
    Whole(der);
    Enter(der, 0, 0x30, tbs + (Tag(0x30, alg) + bits));
    HoldsConcat(der, TbsAt(der), tbs, Tag(0x30, alg) + bits);
    SkipValue(der, TbsAt(der), tbs);
    HoldsConcat(der, SigAlgAt(der), Tag(0x30, alg), bits);
    Enter(der, SigAlgAt(der), 0x30, alg);
  }

  /** The values inside the signed part. */
  lemma {:induction false} TbsLayout(der: Bytes, at: int, version: Bytes, subject: Bytes, spki: Bytes, attributes: Bytes)
    requires at == TbsAt(der) && HoldsAt(der, at, CsrTbs(version, subject, spki, attributes)) && |der| < TWO_31
    requires IsValue(version) && IsValue(subject)
    ensures HasTag(der, at, 0x30) && HoldsAt(der, SpkiAt(der), Tag(0x30, spki))
    ensures ReadInside(der, [at, BodyAt(der, at), Skip(der, BodyAt(der, at))])
  {
    hide *;
    TbsOpened(der, at, version, subject, spki, attributes);
    PassTwo(der, BodyAt(der, at), version, subject, Tag(0x30, spki) + attributes);
    SpkiIsThere(der, at, spki, attributes);
  }

  lemma {:induction false} TbsOpened(der: Bytes, at: int, version: Bytes, subject: Bytes, spki: Bytes, attributes: Bytes)
    requires HoldsAt(der, at, CsrTbs(version, subject, spki, attributes)) && |der| < TWO_31
    ensures HasTag(der, at, 0x30) && ReadLen(der, at + 1).inRange
    ensures HoldsAt(der, BodyAt(der, at), version + (subject + (Tag(0x30, spki) + attributes)))
  {
    Enter(der, at, 0x30, version + (subject + (Tag(0x30, spki) + attributes)));
  }

  /** Past two values that follow each other. */
  lemma {:induction false} PassTwo(der: Bytes, p: int, v: Bytes, s: Bytes, rest: Bytes)
    requires HoldsAt(der, p, v + (s + rest)) && IsValue(v) && IsValue(s) && |der| < TWO_31
    ensures HoldsAt(der, Skip(der, Skip(der, p)), rest)
    ensures ReadLen(der, p + 1).inRange && ReadLen(der, Skip(der, p) + 1).inRange
  {
    hide *;
    HoldsConcat(der, p, v, s + rest);
    SkipValue(der, p, v);
    HoldsConcat(der, p + |v|, s, rest);
    SkipValue(der, p + |v|, s);
  }

  lemma {:induction false} SpkiIsThere(der: Bytes, at: int, spki: Bytes, attributes: Bytes)
    requires at == TbsAt(der) && HoldsAt(der, Skip(der, Skip(der, BodyAt(der, at))), Tag(0x30, spki) + attributes)
    requires ReadLen(der, at + 1).inRange
    requires ReadLen(der, BodyAt(der, at) + 1).inRange && ReadLen(der, Skip(der, BodyAt(der, at)) + 1).inRange
    ensures HoldsAt(der, SpkiAt(der), Tag(0x30, spki))
    ensures ReadInside(der, [at, BodyAt(der, at), Skip(der, BodyAt(der, at))])
  {
    hide Tag, HoldsAt, ReadLen, Skip, BodyAt;
    HoldsConcat(der, SpkiAt(der), Tag(0x30, spki), attributes);
  }

  lemma {:induction false} CsrPartsFound(der: Bytes, tbs: Bytes, spki: Bytes, oid: Bytes, signature: Bytes)
    requires |der| < TWO_31 && HasTag(der, 0, 0x30) && HasTag(der, TbsAt(der), 0x30) && HasTag(der, SigAlgAt(der), 0x30)
    requires HoldsAt(der, TbsAt(der), tbs) && SigAlgAt(der) == TbsAt(der) + |tbs|
    requires HoldsAt(der, SpkiAt(der), Tag(0x30, spki)) && HoldsAt(der, OidAt(der), Tag(0x06, oid))
    requires HoldsAt(der, SignatureAt(der), Tag(0x03, [0] + signature))
    ensures CsrOf(der) == Ok(CsrParts(tbs, Tag(0x30, spki), DerToOid(oid), signature))
    ensures ReadInside(der, [SpkiAt(der), OidAt(der), SignatureAt(der)])
  {
    hide Tag, ReadLen, TbsAt, SpkiAt, SigAlgAt, OidAt, SignatureAt, DerToOid, BitsAt, HoldsAt, Skip, BodyAt, Subarray;
    Slice(der, TbsAt(der), tbs);
    Enter(der, SpkiAt(der), 0x30, spki);
    Slice(der, SpkiAt(der), Tag(0x30, spki));
    Enter(der, OidAt(der), 0x06, oid);
    Slice(der, BodyAt(der, OidAt(der)), oid);
    BitsExtracted(der, SignatureAt(der), signature);
  }

  // ---- the key bits of an SPKI ----

  function KeyBitsOf(der: Bytes): Result<Bytes, WalkError> {
    if !HasTag(der, 0, 0x30) then Err(OuterExpected)
    else if !HasTag(der, BodyAt(der, 0), 0x30) then Err(SigAlgExpected)
    else BitsAt(der, Skip(der, BodyAt(der, 0)))
  }

  method SpkiSubjectPublicKeyBits(der: Bytes) returns (r: Result<Bytes, WalkError>)
    ensures r == KeyBitsOf(der)
  {
    hide ReadLen, Subarray, DerToOid, Within, ValuesFrom;
    var p: int := 0;
    if !HasTag(der, p, 0x30) { return Err(OuterExpected); }
    p := p + 1;
    var outer := ReadLength(der, p);
    p := p + outer.headerLen;
    if !HasTag(der, p, 0x30) { return Err(SigAlgExpected); }
    p := p + 1;
    var alg := ReadLength(der, p);
    p := p + alg.headerLen + alg.length;
    if !HasTag(der, p, 0x03) { return Err(BitStringExpected); }
    p := p + 1;
    var bs := ReadLength(der, p);
    p := p + bs.headerLen;
    if !HasTag(der, p, 0) { return Err(UnusedBits); }
    p := p + 1;
    r := Ok(Subarray(der, p, p + bs.length - 1));
  }

  function SpkiDer(alg: Bytes, bits: Bytes): Bytes {
    Tag(0x30, Tag(0x30, alg) + Tag(0x03, [0] + bits))
  }

  /** The key bits come back exactly. */
  lemma {:induction false} KeyBitsExtracted(alg: Bytes, bits: Bytes)
    requires |SpkiDer(alg, bits)| < TWO_31
    ensures var der := SpkiDer(alg, bits);
            && KeyBitsOf(der) == Ok(bits)
            && ReadInside(der, [0, BodyAt(der, 0), Skip(der, BodyAt(der, 0))])
  {
    var der := SpkiDer(alg, bits);
    hide Tag, ReadLen, BitsAt, HoldsAt, Skip, BodyAt;
    Whole(der);
    Enter(der, 0, 0x30, Tag(0x30, alg) + Tag(0x03, [0] + bits));
    HoldsConcat(der, BodyAt(der, 0), Tag(0x30, alg), Tag(0x03, [0] + bits));
    Enter(der, BodyAt(der, 0), 0x30, alg);
    BitsExtracted(der, Skip(der, BodyAt(der, 0)), bits);
  }

  // ---- which byte strings are accepted ----

  /** A byte that the walk insists on, and what it says where another one or none stands. */
  datatype Demand = Demand(at: int, byte: Byte, error: WalkError)

  predicate Met(b: Bytes, d: Demand) {
    0 <= d.at < |b| && b[d.at] == d.byte
  }

  /** The answer is the error of the first demand that is not met, or none. */
  ghost predicate AnswersFor<T>(b: Bytes, demands: seq<Demand>, r: Result<T, WalkError>) {
    && (r.Ok? <==> forall i :: 0 <= i < |demands| ==> Met(b, demands[i]))
    && (r.Err? ==> exists i: nat :: FirstUnmet(b, demands, i) && r.error == demands[i].error)
  }

  ghost predicate FirstUnmet(b: Bytes, demands: seq<Demand>, i: nat) {
    && i < |demands| && !Met(b, demands[i])
    && forall j :: 0 <= j < i ==> Met(b, demands[j])
  }

  /** caSubjectDer wants two SEQUENCEs around the fields. */
  lemma {:induction false} SubjectAnswers(der: Bytes)
    ensures AnswersFor(der, [Demand(0, 0x30, OuterExpected), Demand(BodyAt(der, 0), 0x30, TbsExpected)], CaSubject(der))
  {
    var demands := [Demand(0, 0x30, OuterExpected), Demand(BodyAt(der, 0), 0x30, TbsExpected)];
    hide BodyAt, CertFields, Subarray, Skip, AnswersFor;
    var k := FirstFailing(der, demands);
    assert (k > 0 ==> Met(der, demands[0])) && (k > 1 ==> Met(der, demands[1]));
    AnswersIf(der, demands, CaSubject(der), k);
  }

  /** The first demand that is not met, or their number. */
  lemma {:induction false} FirstFailing(b: Bytes, demands: seq<Demand>) returns (k: nat)
    ensures k <= |demands| && (forall j :: 0 <= j < k ==> Met(b, demands[j])) && (k < |demands| ==> !Met(b, demands[k]))
  {
    k := 0;
    while k < |demands| && Met(b, demands[k])
      invariant k <= |demands| && forall j :: 0 <= j < k ==> Met(b, demands[j])
    {
      k := k + 1;
    }
  }

  lemma {:induction false} AnswersIf<T>(b: Bytes, demands: seq<Demand>, r: Result<T, WalkError>, k: nat)
    requires k <= |demands| && (forall j :: 0 <= j < k ==> Met(b, demands[j])) && (k < |demands| ==> !Met(b, demands[k]))
    requires if k < |demands| then r.Err? && r.error == demands[k].error else r.Ok?
    ensures AnswersFor(b, demands, r)
  {
    hide Met;
    if k < |demands| { assert FirstUnmet(b, demands, k); }
  }

  /** walkCsr wants the signed part, the key and the algorithm to be SEQUENCEs, an OBJECT
      IDENTIFIER in the algorithm, and a BIT STRING without unused bits. */
  lemma {:induction false} CsrAnswers(der: Bytes)
    ensures var signature := SignatureAt(der);
            AnswersFor(der,
                       [Demand(0, 0x30, OuterExpected), Demand(TbsAt(der), 0x30, TbsExpected), Demand(SpkiAt(der), 0x30, SpkiExpected),
                        Demand(SigAlgAt(der), 0x30, SigAlgExpected), Demand(OidAt(der), 0x06, OidExpected),
                        Demand(signature, 0x03, BitStringExpected), Demand(BodyAt(der, signature), 0, UnusedBits)],
                       CsrOf(der))
  {
    var signature := SignatureAt(der);
    var demands := [Demand(0, 0x30, OuterExpected), Demand(TbsAt(der), 0x30, TbsExpected), Demand(SpkiAt(der), 0x30, SpkiExpected),
                    Demand(SigAlgAt(der), 0x30, SigAlgExpected), Demand(OidAt(der), 0x06, OidExpected),
                    Demand(signature, 0x03, BitStringExpected), Demand(BodyAt(der, signature), 0, UnusedBits)];
    hide BodyAt, TbsAt, SpkiAt, SigAlgAt, OidAt, SignatureAt, Subarray, Skip, DerToOid, ReadLen, AnswersFor;
    var k := FirstFailing(der, demands);
    forall j | 0 <= j < 7 ensures Met(der, demands[j]) <==> HasTag(der, demands[j].at, demands[j].byte) {}
    hide Met, HasTag;
    assert (k > 0 ==> Met(der, demands[0])) && (k > 1 ==> Met(der, demands[1])) && (k > 2 ==> Met(der, demands[2]));
    assert (k > 3 ==> Met(der, demands[3])) && (k > 4 ==> Met(der, demands[4])) && (k > 5 ==> Met(der, demands[5]));
    assert (k > 6 ==> Met(der, demands[6]));
    AnswersIf(der, demands, CsrOf(der), k);
  }

  /** spkiSubjectPublicKeyBits wants a SEQUENCE with a SEQUENCE and a BIT STRING without
      unused bits in it. */
  lemma {:induction false} KeyBitsAnswers(der: Bytes)
    ensures var bits := Skip(der, BodyAt(der, 0));
            AnswersFor(der,
                       [Demand(0, 0x30, OuterExpected), Demand(BodyAt(der, 0), 0x30, SigAlgExpected),
                        Demand(bits, 0x03, BitStringExpected), Demand(BodyAt(der, bits), 0, UnusedBits)],
                       KeyBitsOf(der))
  {
    var bits := Skip(der, BodyAt(der, 0));
    var demands := [Demand(0, 0x30, OuterExpected), Demand(BodyAt(der, 0), 0x30, SigAlgExpected),
                    Demand(bits, 0x03, BitStringExpected), Demand(BodyAt(der, bits), 0, UnusedBits)];
    hide BodyAt, Subarray, Skip, ReadLen, AnswersFor;
    var k := FirstFailing(der, demands);
    assert (k > 0 ==> Met(der, demands[0])) && (k > 1 ==> Met(der, demands[1])) && (k > 2 ==> Met(der, demands[2]));
    assert (k > 3 ==> Met(der, demands[3]));
    AnswersIf(der, demands, KeyBitsOf(der), k);
  }
}
