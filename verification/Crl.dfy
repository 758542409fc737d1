/** The certificate revocation list (section 5.1 of RFC 5280): buildCrl of
    acme-server/src/server/crl.ts. */
module Crl {
  import opened Wrappers
  import opened Bytes
  import opened Der
  import opened Oid
  import opened CrlTime
  import R = DerReader

  // ---- serial numbers ----

  predicate IsHex(c: char) {
    '0' <= c <= '9' || 'a' <= c <= 'f' || 'A' <= c <= 'F'
  }

  predicate AllHex(s: string) {
    forall i :: 0 <= i < |s| ==> IsHex(s[i])
  }

  function HexDigit(c: char): (d: nat)
    requires IsHex(c)
    ensures d < 16
  {
    if c <= '9' then c as int - '0' as int else if c <= 'F' then c as int - 'A' as int + 10 else c as int - 'a' as int + 10
  }

  /** Buffer.from(h, 'hex'): pairs of digits up to the first that is not one. */
  function HexBytes(h: string): Bytes {
    if |h| < 2 || !IsHex(h[0]) || !IsHex(h[1]) then [] else [16 * HexDigit(h[0]) + HexDigit(h[1])] + HexBytes(h[2..])
  }

  /** The contents of the INTEGER: a zero byte in front keeps it from being negative. */
  function IntegerContents(hex: string): Bytes {
    var bytes := HexBytes(if |hex| % 2 != 0 then "0" + hex else hex);
    if bytes != [] && bytes[0] >= 0x80 then [0] + bytes else bytes
  }

  function IntegerFromHex(hex: string): R.Tlv {
    R.Tlv(0x02, IntegerContents(hex))
  }

  /** The number that a string of hexadecimal digits denotes. */
  function HexValue(h: string): nat
    requires AllHex(h)
  {
    if h == "" then 0 else 16 * HexValue(h[..|h| - 1]) + HexDigit(h[|h| - 1])
  }

  lemma {:induction false} HexBytesSnoc(h: string, c: char, d: char)
    requires AllHex(h) && |h| % 2 == 0 && IsHex(c) && IsHex(d)
    ensures HexBytes(h + [c, d]) == HexBytes(h) + [16 * HexDigit(c) + HexDigit(d)]
  {
    hide HexDigit;
    if h == "" {
      assert h + [c, d] == [c, d] && [c, d][2..] == "";
    } else {
      assert (h + [c, d])[2..] == h[2..] + [c, d];
      HexBytesSnoc(h[2..], c, d);
    }
  }

  lemma {:induction false} HexBytesValue(h: string)
    requires AllHex(h) && |h| % 2 == 0
    ensures Unsigned(HexBytes(h)) == HexValue(h)
  {
    hide HexDigit;
    if h != "" {
      var init, c, d := h[..|h| - 2], h[|h| - 2], h[|h| - 1];
      HexBytesValue(init);
      assert h == init + [c, d];
      HexBytesSnoc(init, c, d);
      assert h[..|h| - 1][..|h| - 2] == init;
      var bytes := HexBytes(init);
      var last: Byte := 16 * HexDigit(c) + HexDigit(d);
      assert (bytes + [last])[..|bytes|] == bytes;
    }
  }

  lemma {:induction false} LeadingZeroDigit(h: string)
    requires AllHex(h)
    ensures AllHex("0" + h) && HexValue("0" + h) == HexValue(h)
  {
    hide HexDigit;
    assert HexDigit('0') == 0 by { ZeroDigit(); }
    if h == "" {
      assert ("0" + h)[..0] == "";
    } else {
      LeadingZeroDigit(h[..|h| - 1]);
      assert ("0" + h)[..|h|] == "0" + h[..|h| - 1];
    }
  }

  lemma {:induction false} ZeroDigit()
    ensures IsHex('0') && HexDigit('0') == 0
  {}

  /** The encoded INTEGER denotes the serial number, which is never negative. */
  lemma {:induction false} SerialValue(hex: string)
    requires AllHex(hex)
    ensures TwosComplement(IntegerContents(hex)) == HexValue(hex)
  {
    hide HexBytes, HexValue, HexDigit;
    var h := if |hex| % 2 != 0 then "0" + hex else hex;
    LeadingZeroDigit(hex);
    HexBytesValue(h);
    var bytes := HexBytes(h);
    UnsignedCons(0, bytes);
  }

  /** Section 8.3.2 of X.690: no contents octet could be left out. */
  predicate MinimalInteger(c: Bytes) {
    c != [] && (|c| > 1 ==> !(c[0] == 0 && c[1] < 128) && !(c[0] == 255 && c[1] >= 128))
  }

  predicate ZeroOctet(h: string) {
    |h| > 2 && h[0] == h[1] == '0' && h[2] <= '7'
  }

  lemma {:induction false} HexBytesShape(h: string)
    requires AllHex(h) && |h| % 2 == 0
    ensures 2 * |HexBytes(h)| == |h|
    ensures h != "" ==> HexBytes(h)[0] == 16 * HexDigit(h[0]) + HexDigit(h[1])
  {
    hide HexDigit;
    if h != "" { HexBytesShape(h[2..]); }
  }

  lemma {:induction false} OctetOf(c: char, d: char)
    requires IsHex(c) && IsHex(d)
    ensures 16 * HexDigit(c) + HexDigit(d) == 0 <==> c == d == '0'
    ensures 16 * HexDigit(c) + HexDigit(d) < 128 <==> c <= '7'
  {}

  /** The INTEGER is minimal unless the hexadecimal serial is empty or, padded to whole
      octets, starts with a zero octet that the next one does not need. */
  lemma {:induction false} SerialMinimalIff(hex: string)
    requires AllHex(hex)
    ensures MinimalInteger(IntegerContents(hex)) <==>
            hex != "" && !ZeroOctet(if |hex| % 2 != 0 then "0" + hex else hex)
  {
    var h := if |hex| % 2 != 0 then "0" + hex else hex;
    HexBytesShape(h);
    if |h| >= 2 { OctetOf(h[0], h[1]); }
    if |h| >= 4 {
      HexBytesShape(h[2..]);
      OctetOf(h[2], h[3]);
      assert HexBytes(h) == [16 * HexDigit(h[0]) + HexDigit(h[1])] + HexBytes(h[2..]);
    }
  }

  function HexChar(d: nat): char
    requires d < 16
  {
    "0123456789abcdef"[d]
  }

  /** toString('hex') */
  function HexOf(b: Bytes): string {
    if b == [] then "" else [HexChar(b[0] / 16), HexChar(b[0] % 16)] + HexOf(b[1..])
  }

  lemma {:induction false} HexCharDigit(d: nat)
    requires d < 16
    ensures IsHex(HexChar(d)) && HexDigit(HexChar(d)) == d
  {}

  lemma {:induction false} HexRoundTrip(b: Bytes)
    ensures AllHex(HexOf(b)) && |HexOf(b)| == 2 * |b| && HexBytes(HexOf(b)) == b
  {
    hide HexChar, HexDigit, IsHex;
    if b != [] {
      HexRoundTrip(b[1..]);
      HexCharDigit(b[0] / 16);
      HexCharDigit(b[0] % 16);
      assert HexOf(b)[2..] == HexOf(b[1..]);
    }
  }

  /** genSerial of signer.ts: (b[0] & 0x7f) | 0x01, the other octets random. */
  function GenSerial(random: Bytes): string
    requires random != []
  {
    var low := random[0] % 128;
    HexOf([if low % 2 == 0 then low + 1 else low] + random[1..])
  }

  /** The serials of this server are positive and are encoded minimally, octet for octet. */
  lemma {:induction false} GeneratedSerial(random: Bytes)
    requires random != []
    ensures var hex := GenSerial(random);
            && AllHex(hex) && |IntegerContents(hex)| == |random|
            && MinimalInteger(IntegerContents(hex)) && TwosComplement(IntegerContents(hex)) > 0
  {
    hide HexOf, IntegerContents, Unsigned;
    var low := random[0] % 128;
    var b: Bytes := [if low % 2 == 0 then low + 1 else low] + random[1..];
    PositiveHex(b);
    UnsignedPositive(b);
  }

  lemma {:induction false} PositiveHex(b: Bytes)
    requires b != [] && 0 < b[0] < 128
    ensures AllHex(HexOf(b)) && IntegerContents(HexOf(b)) == b
  {
    hide HexOf, HexBytes;
    HexRoundTrip(b);
  }

  lemma {:induction false} UnsignedPositive(b: Bytes)
    requires b != [] && b[0] > 0
    ensures Unsigned(b) > 0
  {
    if |b| > 1 { UnsignedPositive(b[..|b| - 1]); }
  }

  // ---- the list ----

  /** A row of the certificates table. */
  datatype CertRecord = CertRecord(serialHex: string, revoked: bool, notAfter: int, revokedAt: Option<DateTime>)

  /** Revoked and not expired for more than a day. */
  predicate IsListed(row: CertRecord, cutoff: int) {
    row.revoked && row.notAfter > cutoff
  }

  function Selected(rows: seq<CertRecord>, cutoff: int): (r: seq<CertRecord>)
    ensures forall x :: x in r <==> x in rows && IsListed(x, cutoff)
  {
    if rows == [] then []
    else
      var last := rows[|rows| - 1];
      assert rows == rows[..|rows| - 1] + [last];
      Selected(rows[..|rows| - 1], cutoff) + if IsListed(last, cutoff) then [last] else []
  }

  /** `ix` holds exactly the positions of the listed rows, in ascending order. */
  ghost predicate ListedPositions(rows: seq<CertRecord>, cutoff: int, ix: seq<nat>) {
    && (forall i: nat :: i in ix <==> i < |rows| && rows[i].revoked && rows[i].notAfter > cutoff)
    && (forall a, b :: 0 <= a < b < |ix| ==> ix[a] < ix[b])
  }

  lemma {:induction false} OneMorePosition(rows: seq<CertRecord>, cutoff: int, before: seq<nat>)
    requires rows != [] && ListedPositions(rows[..|rows| - 1], cutoff, before)
    ensures ListedPositions(rows, cutoff, before + if IsListed(rows[|rows| - 1], cutoff) then [|rows| - 1] else [])
  {
    var n := |rows| - 1;
    var ix := before + if IsListed(rows[n], cutoff) then [n] else [];
    forall i: nat ensures i in ix <==> i < |rows| && rows[i].revoked && rows[i].notAfter > cutoff {
      assert i in ix <==> i in before || (i == n && IsListed(rows[n], cutoff));
    }
    forall a, b | 0 <= a < b < |ix| ensures ix[a] < ix[b] {
      assert ix[a] in before;
    }
  }

  /** Row k of `sel` is the one at position ix[k]. */
  ghost predicate RowsAt(rows: seq<CertRecord>, ix: seq<nat>, sel: seq<CertRecord>) {
    |sel| == |ix| && forall k :: 0 <= k < |ix| ==> ix[k] < |rows| && sel[k] == rows[ix[k]]
  }

  /** Each listed row is selected once, and the order of the rows is kept. */
  lemma {:induction false} SelectedInOrder(rows: seq<CertRecord>, cutoff: int) returns (ix: seq<nat>)
    ensures ListedPositions(rows, cutoff, ix) && RowsAt(rows, ix, Selected(rows, cutoff))
  {
    if rows == [] {
      ix := [];
    } else {
      var n := |rows| - 1;
      var before := SelectedInOrder(rows[..n], cutoff);
      hide ListedPositions;
      OneMorePosition(rows, cutoff, before);
      ix := before + if IsListed(rows[n], cutoff) then [n] else [];
      assert Selected(rows, cutoff) == Selected(rows[..n], cutoff) + if IsListed(rows[n], cutoff) then [rows[n]] else [];
    }
  }

  function RevokedAt(row: CertRecord, now: DateTime): DateTime {
    if row.revokedAt.Some? then row.revokedAt.value else now
  }

  function EntryParts(row: CertRecord, now: DateTime): seq<R.Tlv> {
    [IntegerFromHex(row.serialHex), UtcOrGeneralized(RevokedAt(row, now))]
  }

  function Entry(row: CertRecord, now: DateTime): R.Tlv {
    R.Tlv(0x30, R.EncodeAll(EntryParts(row, now)))
  }

  function Entries(rows: seq<CertRecord>, now: DateTime): (r: seq<R.Tlv>)
    ensures |r| == |rows| && forall i :: 0 <= i < |rows| ==> r[i] == Entry(rows[i], now)
  {
    seq(|rows|, i requires 0 <= i < |rows| => Entry(rows[i], now))
  }

  /** Everything that describes a list. */
  datatype CrlInput = CrlInput(sigAlg: R.Tlv, issuer: R.Tlv, now: DateTime, next: DateTime, rows: seq<CertRecord>)

  function TbsParts(x: CrlInput): seq<R.Tlv> {
    [R.Tlv(0x02, [1]), x.sigAlg, x.issuer, UtcOrGeneralized(x.now), UtcOrGeneralized(x.next)]
    + if x.rows == [] then [] else [R.Tlv(0x30, R.EncodeAll(Entries(x.rows, x.now)))]
  }

  function Tbs(x: CrlInput): R.Tlv {
    R.Tlv(0x30, R.EncodeAll(TbsParts(x)))
  }

  /** sigAlgIdDer: the algorithm, with a NULL parameter for RSA. */
  function SigAlgId(arcs: seq<nat>, withNull: bool): R.Tlv
    requires |arcs| >= 2
  {
    R.Tlv(0x30, OidDer(arcs) + if withNull then [0x05, 0x00] else [])
  }

  function CrlParts(x: CrlInput, sign: Bytes -> Bytes): seq<R.Tlv> {
    [Tbs(x), x.sigAlg, R.Tlv(0x03, [0] + sign(R.Encode(Tbs(x))))]
  }

  function CrlDer(x: CrlInput, sign: Bytes -> Bytes): Bytes {
    R.Encode(R.Tlv(0x30, R.EncodeAll(CrlParts(x, sign))))
  }

  /** buildCrl, for the revoked rows among `rows`; the algorithm is given by its OID. */
  method BuildCrl(algorithm: seq<nat>, withNull: bool, issuer: R.Tlv, now: DateTime, next: DateTime,
                  rows: seq<CertRecord>, cutoff: int, sign: Bytes -> Bytes) returns (crl: Bytes)
    requires |algorithm| >= 2
    ensures crl == CrlDer(CrlInput(SigAlgId(algorithm, withNull), issuer, now, next, Selected(rows, cutoff)), sign)
  {
    hide Tag, UtcOrGeneralized, IntegerFromHex, OidDer;
    var sigAlg := SigAlgId(algorithm, withNull);
    var revoked := Selected(rows, cutoff);
    var version := R.Encode(R.Tlv(0x02, [1]));
    var head := version + R.Encode(sigAlg) + R.Encode(issuer) + R.Encode(UtcOrGeneralized(now)) + R.Encode(UtcOrGeneralized(next));
    var body := head;
    if |revoked| > 0 {
      var revokedSeq: Bytes := [];
      for k := 0 to |revoked|
        invariant revokedSeq == R.EncodeAll(Entries(revoked[..k], now))
      {
        var ts := RevokedAt(revoked[k], now);
        var entry := Tag(0x30, R.Encode(IntegerFromHex(revoked[k].serialHex)) + R.Encode(UtcOrGeneralized(ts)));
        EntryEncoded(revoked[k], now);
        assert Entries(revoked[..k + 1], now) == Entries(revoked[..k], now) + [Entry(revoked[k], now)];
        EncodeSnoc(Entries(revoked[..k], now), Entry(revoked[k], now));
        revokedSeq := revokedSeq + entry;
      }
      assert revoked[..|revoked|] == revoked;
      body := head + Tag(0x30, revokedSeq);
    }
    ghost var x := CrlInput(sigAlg, issuer, now, next, revoked);
    TbsEncoded(x);
    assert head + [] == head;
    var tbs := Tag(0x30, body);
    var sigBitString := Tag(0x03, [0] + sign(tbs));
    CrlEncoded(x, sign);
    crl := Tag(0x30, tbs + R.Encode(sigAlg) + sigBitString);
  }

  lemma {:induction false} EncodeSnoc(vs: seq<R.Tlv>, v: R.Tlv)
    ensures R.EncodeAll(vs + [v]) == R.EncodeAll(vs) + R.Encode(v)
  {
    hide R.Encode;
    if vs == [] {
      assert vs + [v] == [v] && [v][1..] == [];
    } else {
      assert (vs + [v])[1..] == vs[1..] + [v];
      EncodeSnoc(vs[1..], v);
    }
  }

  lemma {:induction false} EncodeTwo(a: R.Tlv, b: R.Tlv)
    ensures R.EncodeAll([a, b]) == R.Encode(a) + R.Encode(b)
  {
    hide R.Encode;
    assert [a, b][1..] == [b] && [b][1..] == [];
    assert R.EncodeAll([b]) == R.Encode(b) + [];
    assert R.Encode(b) + [] == R.Encode(b);
  }

  lemma {:induction false} EntryEncoded(row: CertRecord, now: DateTime)
    ensures R.Encode(Entry(row, now)) ==
            Tag(0x30, R.Encode(IntegerFromHex(row.serialHex)) + R.Encode(UtcOrGeneralized(RevokedAt(row, now))))
  {
    hide Tag, UtcOrGeneralized, IntegerFromHex;
    EncodeTwo(IntegerFromHex(row.serialHex), UtcOrGeneralized(RevokedAt(row, now)));
  }

  lemma {:induction false} EncodeFive(a: R.Tlv, b: R.Tlv, c: R.Tlv, d: R.Tlv, e: R.Tlv)
    ensures R.EncodeAll([a, b, c, d, e]) == R.Encode(a) + R.Encode(b) + R.Encode(c) + R.Encode(d) + R.Encode(e)
  {
    EncodeTwo(a, b);
    EncodeSnoc([a, b], c);
    EncodeSnoc([a, b, c], d);
    EncodeSnoc([a, b, c, d], e);
    assert [a, b] + [c] == [a, b, c];
    assert [a, b, c] + [d] == [a, b, c, d];
    assert [a, b, c, d] + [e] == [a, b, c, d, e];
  }

  lemma {:induction false} TbsEncoded(x: CrlInput)
    ensures R.Encode(Tbs(x)) ==
            Tag(0x30, R.Encode(R.Tlv(0x02, [1])) + R.Encode(x.sigAlg) + R.Encode(x.issuer)
                      + R.Encode(UtcOrGeneralized(x.now)) + R.Encode(UtcOrGeneralized(x.next))
                      + if x.rows == [] then [] else Tag(0x30, R.EncodeAll(Entries(x.rows, x.now))))
  {
    hide Tag, UtcOrGeneralized, R.EncodeAll;
    var version := R.Tlv(0x02, [1]);
    var five := [version, x.sigAlg, x.issuer, UtcOrGeneralized(x.now), UtcOrGeneralized(x.next)];
    EncodeFive(version, x.sigAlg, x.issuer, UtcOrGeneralized(x.now), UtcOrGeneralized(x.next));
    if x.rows == [] {
      assert five + [] == five;
      assert R.EncodeAll(five) + [] == R.EncodeAll(five);
    } else {
      EncodeSnoc(five, R.Tlv(0x30, R.EncodeAll(Entries(x.rows, x.now))));
    }
  }

  lemma {:induction false} CrlEncoded(x: CrlInput, sign: Bytes -> Bytes)
    ensures CrlDer(x, sign) ==
            Tag(0x30, R.Encode(Tbs(x)) + R.Encode(x.sigAlg) + Tag(0x03, [0] + sign(R.Encode(Tbs(x)))))
  {
    hide Tag, Tbs, R.EncodeAll;
    var bits := R.Tlv(0x03, [0] + sign(R.Encode(Tbs(x))));
    EncodeTwo(Tbs(x), x.sigAlg);
    EncodeSnoc([Tbs(x), x.sigAlg], bits);
    assert [Tbs(x), x.sigAlg] + [bits] == [Tbs(x), x.sigAlg, bits];
  }

  // ---- reading a list, as the standard says ----

  datatype CrlInfo = CrlInfo(sigAlg: R.Tlv, issuer: R.Tlv, thisUpdate: DateTime, nextUpdate: DateTime,
                             revoked: Option<seq<(int, DateTime)>>)

  function ReadEntry(v: R.Tlv): Option<(int, DateTime)> {
    if v.tag != 0x30 then None
    else
      match R.ReadAll(v.body)
      case None => None
      case Some(parts) =>
        if |parts| != 2 || parts[0].tag != 0x02 || ReadTime(parts[1]).None? then None
        else Some((TwosComplement(parts[0].body), ReadTime(parts[1]).value))
  }

  function ReadEntries(vs: seq<R.Tlv>): Option<seq<(int, DateTime)>> {
    if vs == [] then Some([])
    else
      var first, more := ReadEntry(vs[0]), ReadEntries(vs[1..]);
      if first.None? || more.None? then None else Some([first.value] + more.value)
  }

  function ReadTbs(tbs: R.Tlv): Option<CrlInfo> {
    if tbs.tag != 0x30 then None
    else
      match R.ReadAll(tbs.body)
      case None => None
      case Some(parts) =>
        if !(5 <= |parts| <= 6) || parts[0] != R.Tlv(0x02, [1]) || ReadTime(parts[3]).None? || ReadTime(parts[4]).None? then None
        else
          var info := CrlInfo(parts[1], parts[2], ReadTime(parts[3]).value, ReadTime(parts[4]).value, None);
          if |parts| == 5 then Some(info)
          else
            var inner := R.ReadAll(parts[5].body);
            if parts[5].tag != 0x30 || inner.None? || inner.value == [] || ReadEntries(inner.value).None? then None
            else Some(info.(revoked := ReadEntries(inner.value)))
  }

  predicate FourDigitYear(d: DateTime) {
    ValidDate(d) && 1000 <= d.year <= 9999
  }

  /** What section 5.1 asks of the rows. */
  predicate Listable(rows: seq<CertRecord>) {
    forall i :: 0 <= i < |rows| ==> AllHex(rows[i].serialHex) && (rows[i].revokedAt.Some? ==> FourDigitYear(rows[i].revokedAt.value))
  }

  /** The entries a reader must find: serial number and time of each row, in order. */
  function Expected(rows: seq<CertRecord>, now: DateTime): (r: seq<(int, DateTime)>)
    requires Listable(rows)
    ensures |r| == |rows|
    ensures forall i :: 0 <= i < |rows| ==>
              r[i] == (HexValue(rows[i].serialHex) as int, if rows[i].revokedAt.Some? then rows[i].revokedAt.value else now)
  {
    seq(|rows|, i requires 0 <= i < |rows| =>
                  (HexValue(rows[i].serialHex) as int, if rows[i].revokedAt.Some? then rows[i].revokedAt.value else now))
  }

  lemma {:induction false} EntryReads(row: CertRecord, now: DateTime)
    requires Listable([row]) && FourDigitYear(now) && |R.Encode(Entry(row, now))| < TWO_32
    ensures AllHex(row.serialHex)
    ensures ReadEntry(Entry(row, now)) == Some((HexValue(row.serialHex) as int, RevokedAt(row, now)))
  {
    assert [row][0] == row;
    var parts := EntryParts(row, now);
    R.BodyReads(0x30, parts);
    SerialValue(row.serialHex);
    TimeRoundTrip(RevokedAt(row, now));
    hide R.ReadAll, R.EncodeAll, UtcOrGeneralized, IntegerContents, ReadTime, HexValue;
  }

  lemma {:induction false} PartShorter(vs: seq<R.Tlv>, i: nat)
    requires i < |vs|
    ensures |R.Encode(vs[i])| <= |R.EncodeAll(vs)|
  {
    hide R.Encode;
    if i > 0 { PartShorter(vs[1..], i - 1); }
  }

  lemma {:induction false} EntriesRead(rows: seq<CertRecord>, now: DateTime)
    requires Listable(rows) && FourDigitYear(now) && |R.EncodeAll(Entries(rows, now))| < TWO_32
    ensures ReadEntries(Entries(rows, now)) == Some(Expected(rows, now))
  {
    if rows != [] {
      var vs := Entries(rows, now);
      PartShorter(vs, 0);
      assert Listable([rows[0]]);
      EntryReads(rows[0], now);
      assert vs[1..] == Entries(rows[1..], now);
      EntriesRead(rows[1..], now);
      hide Entry, ReadEntry, R.EncodeAll, HexValue, Listable, RevokedAt, FourDigitYear, R.Encode;
      ExpectedCons(rows, now);
    }
  }

  lemma {:induction false} ExpectedCons(rows: seq<CertRecord>, now: DateTime)
    requires rows != [] && Listable(rows) && Listable(rows[1..])
    ensures Expected(rows, now) == [(HexValue(rows[0].serialHex) as int, RevokedAt(rows[0], now))] + Expected(rows[1..], now)
  {}

  /** Decoding the TBSCertList gives back the algorithm, the issuer, both dates and exactly
      one entry per selected row, in order, with the row's serial number as a natural
      number; without rows the field is absent. */
  lemma {:induction false} TbsRoundTrip(x: CrlInput)
    requires Listable(x.rows) && FourDigitYear(x.now) && FourDigitYear(x.next)
    requires |R.Encode(Tbs(x))| < TWO_32
    ensures ReadTbs(Tbs(x)) ==
            Some(CrlInfo(x.sigAlg, x.issuer, x.now, x.next, if x.rows == [] then None else Some(Expected(x.rows, x.now))))
  {
    R.BodyReads(0x30, TbsParts(x));
    TimeRoundTrip(x.now);
    TimeRoundTrip(x.next);
    if x.rows != [] { RevokedRead(x); }
    hide *;
    PartsAre(x);
    TbsHasParts(x);
    var revoked := if x.rows == [] then None else Some(Expected(x.rows, x.now));
    PartsRead(Tbs(x), TbsParts(x), x, revoked);
  }

  lemma {:induction false} TbsHasParts(x: CrlInput)
    ensures Tbs(x) == R.Tlv(0x30, R.EncodeAll(TbsParts(x)))
  {}

  lemma {:induction false} PartsRead(tbs: R.Tlv, parts: seq<R.Tlv>, x: CrlInput, revoked: Option<seq<(int, DateTime)>>)
    requires tbs == R.Tlv(0x30, R.EncodeAll(parts)) && R.ReadAll(tbs.body) == Some(parts)
    requires |parts| == (if revoked.None? then 5 else 6)
    requires parts[0] == R.Tlv(0x02, [1]) && parts[1] == x.sigAlg && parts[2] == x.issuer
    requires ReadTime(parts[3]) == Some(x.now) && ReadTime(parts[4]) == Some(x.next)
    requires revoked.Some? ==>
               && parts[5].tag == 0x30
               && R.ReadAll(parts[5].body).Some? && R.ReadAll(parts[5].body).value != []
               && ReadEntries(R.ReadAll(parts[5].body).value) == revoked
    ensures ReadTbs(tbs) == Some(CrlInfo(x.sigAlg, x.issuer, x.now, x.next, revoked))
  {}

  lemma {:induction false} PartsAre(x: CrlInput)
    ensures var parts := TbsParts(x);
            && |parts| == (if x.rows == [] then 5 else 6)
            && parts[0] == R.Tlv(0x02, [1]) && parts[1] == x.sigAlg && parts[2] == x.issuer
            && parts[3] == UtcOrGeneralized(x.now) && parts[4] == UtcOrGeneralized(x.next)
            && (x.rows != [] ==> parts[5] == R.Tlv(0x30, R.EncodeAll(Entries(x.rows, x.now))))
  {}

  lemma {:induction false} RevokedRead(x: CrlInput)
    requires x.rows != [] && Listable(x.rows) && FourDigitYear(x.now) && |R.Encode(Tbs(x))| < TWO_32
    ensures Entries(x.rows, x.now) != []
    ensures R.ReadAll(R.EncodeAll(Entries(x.rows, x.now))) == Some(Entries(x.rows, x.now))
    ensures ReadEntries(Entries(x.rows, x.now)) == Some(Expected(x.rows, x.now))
  {
    var parts := TbsParts(x);
    hide Entry, Listable, FourDigitYear, UtcOrGeneralized;
    R.BodyShorter(Tbs(x));
    PartShorter(parts, 5);
    R.BodyReads(0x30, Entries(x.rows, x.now));
    R.BodyShorter(parts[5]);
    EntriesRead(x.rows, x.now);
  }

  /** The signed list as a whole: the three parts are found, and the signature is over the
      encoding of the first. */
  lemma {:induction false} CrlRoundTrip(x: CrlInput, sign: Bytes -> Bytes)
    requires |CrlDer(x, sign)| < TWO_32
    ensures R.ReadAll(CrlDer(x, sign)) == Some([R.Tlv(0x30, R.EncodeAll(CrlParts(x, sign)))])
    ensures R.ReadAll(R.EncodeAll(CrlParts(x, sign))) == Some([Tbs(x), x.sigAlg, R.Tlv(0x03, [0] + sign(R.Encode(Tbs(x))))])
    ensures |R.Encode(Tbs(x))| < TWO_32
  {
    var outer := R.Tlv(0x30, R.EncodeAll(CrlParts(x, sign)));
    R.BodyReads(0x30, CrlParts(x, sign));
    R.BodyShorter(outer);
    PartShorter(CrlParts(x, sign), 0);
    hide R.ReadAll, R.Encode, Tbs, R.EncodeAll;
    SingleReads(outer);
  }

  lemma {:induction false} SingleReads(v: R.Tlv)
    requires |R.Encode(v)| < TWO_32
    ensures R.ReadAll(R.Encode(v)) == Some([v])
  {
    hide R.Encode;
    assert [v][1..] == [];
    assert R.EncodeAll([v]) == R.Encode(v) + [];
    assert R.Encode(v) + [] == R.Encode(v);
    R.AllReads([v]);
  }

  /** The algorithm is read back as its OID and, for RSA, a NULL. */
  lemma {:induction false} SigAlgReads(arcs: seq<nat>, withNull: bool)
    requires |arcs| >= 2 && |R.Encode(SigAlgId(arcs, withNull))| < TWO_32
    ensures SigAlgId(arcs, withNull).tag == 0x30
    ensures R.ReadAll(SigAlgId(arcs, withNull).body) ==
            Some([R.Tlv(0x06, OidContents(arcs))] + if withNull then [R.Tlv(0x05, [])] else [])
  {
    var parts := [R.Tlv(0x06, OidContents(arcs))] + if withNull then [R.Tlv(0x05, [])] else [];
    R.BodyShorter(SigAlgId(arcs, withNull));
    assert R.EncodeAll([R.Tlv(0x05, [])]) == [0x05, 0x00] by { assert R.EncodeAll([]) == []; }
    assert R.EncodeAll(parts) == SigAlgId(arcs, withNull).body by {
      assert parts[1..] == if withNull then [R.Tlv(0x05, [])] else [];
      assert R.EncodeAll([]) == [];
      assert OidDer(arcs) + [] == OidDer(arcs);
    }
    R.BodyReads(0x30, parts);
  }

  /** A hexadecimal digit has its place in the list of digits, in either case. */
  lemma {:induction false} HexDigitIs(c: char)
    requires IsHex(c)
    ensures c == "0123456789abcdef"[HexDigit(c)] || c == "0123456789ABCDEF"[HexDigit(c)]
  {}
}
