/** Dates in a revocation list (sections 4.1.2.5.1 and 4.1.2.5.2 of RFC 5280):
    utcOrGeneralized of acme-server/src/server/crl.ts. */
module CrlTime {
  import opened Wrappers
  import opened Bytes
  import opened DerReader

  /** The UTC fields of a Date. */
  datatype DateTime = DateTime(year: int, month: nat, day: nat, hour: nat, minute: nat, second: nat)

  predicate ValidDate(d: DateTime) {
    1 <= d.month <= 12 && 1 <= d.day <= 31 && d.hour < 24 && d.minute < 60 && d.second < 60
  }

  const ZED: Byte := 90
  const MINUS: Byte := 45

  // ---- writing ----

  /** The text of a number. */
  function DecimalBytes(n: nat): (r: Bytes)
    ensures |r| >= 1
  {
    if n < 10 then [48 + n] else DecimalBytes(n / 10) + [48 + n % 10]
  }

  /** String(n).padStart(2, '0') */
  function Pad2(n: nat): Bytes {
    if n < 10 then [48] + DecimalBytes(n) else DecimalBytes(n)
  }

  function YearBytes(y: int): Bytes {
    if y < 0 then [MINUS] + DecimalBytes(-y) else DecimalBytes(y)
  }

  function AfterYear(d: DateTime): Bytes {
    Pad2(d.month) + Pad2(d.day) + Pad2(d.hour) + Pad2(d.minute) + Pad2(d.second) + [ZED]
  }

  function UtcOrGeneralized(d: DateTime): Tlv {
    if 1950 <= d.year < 2050 then Tlv(0x17, Pad2(d.year % 100) + AfterYear(d))
    else Tlv(0x18, YearBytes(d.year) + AfterYear(d))
  }

  // ---- reading, as the standard says ----

  function ReadDigits(b: Bytes): Option<nat> {
    if b == [] then Some(0)
    else
      var init, last := ReadDigits(b[..|b| - 1]), b[|b| - 1];
      if init.None? || !(48 <= last <= 57) then None else Some(10 * init.value + (last - 48))
  }

  function ReadAfterYear(year: int, b: Bytes): Option<DateTime> {
    if |b| != 11 || b[10] != ZED then None
    else
      var mo, d, h, mi, s := ReadDigits(b[0..2]), ReadDigits(b[2..4]), ReadDigits(b[4..6]), ReadDigits(b[6..8]), ReadDigits(b[8..10]);
      if mo.None? || d.None? || h.None? || mi.None? || s.None? then None
      else Some(DateTime(year, mo.value, d.value, h.value, mi.value, s.value))
  }

  /** UTCTime has two digits of the year, 50 to 99 meaning 1950 to 1999; GeneralizedTime has
      four. */
  function ReadTime(v: Tlv): Option<DateTime> {
    if v.tag == 0x17 && |v.body| == 13 then
      var yy := ReadDigits(v.body[..2]);
      if yy.None? then None else ReadAfterYear(if yy.value >= 50 then 1900 + yy.value else 2000 + yy.value, v.body[2..])
    else if v.tag == 0x18 && |v.body| == 15 then
      var year := ReadDigits(v.body[..4]);
      if year.None? then None else ReadAfterYear(year.value, v.body[4..])
    else None
  }

  // ---- the round trip ----

  lemma {:induction false} DecimalReads(n: nat)
    ensures ReadDigits(DecimalBytes(n)) == Some(n)
  {
    if n < 10 {
      assert DecimalBytes(n)[..0] == [];
    } else {
      DecimalReads(n / 10);
      assert DecimalBytes(n)[..|DecimalBytes(n)| - 1] == DecimalBytes(n / 10);
    }
  }

  lemma {:induction false} DecimalLength(n: nat)
    ensures |DecimalBytes(n)| == 2 <==> 10 <= n < 100
    ensures |DecimalBytes(n)| == 4 <==> 1000 <= n < 10000
  {
    assert n >= 10 ==> |DecimalBytes(n)| == |DecimalBytes(n / 10)| + 1;
    assert n / 10 >= 10 ==> |DecimalBytes(n / 10)| == |DecimalBytes(n / 100)| + 1;
    assert n / 100 >= 10 ==> |DecimalBytes(n / 100)| == |DecimalBytes(n / 1000)| + 1;
    assert n / 1000 >= 10 ==> |DecimalBytes(n / 1000)| == |DecimalBytes(n / 10000)| + 1;
  }

  lemma {:induction false} Pad2Reads(n: nat)
    requires n < 100
    ensures |Pad2(n)| == 2 && ReadDigits(Pad2(n)) == Some(n)
  {
    if n < 10 {
      assert Pad2(n)[..1] == [48] && [48][..0] == [];
      assert ReadDigits([48]) == Some(0);
    } else {
      DecimalLength(n);
      DecimalReads(n);
    }
  }

  lemma {:induction false} AfterYearReads(d: DateTime, year: int)
    requires ValidDate(d)
    ensures |AfterYear(d)| == 11
    ensures ReadAfterYear(year, AfterYear(d)) == Some(d.(year := year))
  {
    Pad2Reads(d.month);
    Pad2Reads(d.day);
    Pad2Reads(d.hour);
    Pad2Reads(d.minute);
    Pad2Reads(d.second);
    hide Pad2, ReadDigits;
    var b := AfterYear(d);
    assert b[0..2] == Pad2(d.month);
    assert b[2..4] == Pad2(d.day);
    assert b[4..6] == Pad2(d.hour);
    assert b[6..8] == Pad2(d.minute);
    assert b[8..10] == Pad2(d.second);
  }

  lemma {:induction false} MinusIsNoDigit(b: Bytes)
    requires b != [] && b[0] == MINUS
    ensures ReadDigits(b).None?
  {
    if |b| > 1 { MinusIsNoDigit(b[..|b| - 1]); }
  }

  /** A date is read back if and only if its year has four digits. */
  lemma {:induction false} TimeRoundTrip(d: DateTime)
    requires ValidDate(d)
    ensures ReadTime(UtcOrGeneralized(d)) == Some(d) <==> 1000 <= d.year <= 9999
  {
    hide AfterYear, ReadAfterYear, Pad2;
    if 1950 <= d.year < 2050 {
      UtcReads(d);
    } else {
      GeneralizedReads(d);
    }
  }

  lemma {:induction false} UtcReads(d: DateTime)
    requires ValidDate(d) && 1950 <= d.year < 2050
    ensures ReadTime(UtcOrGeneralized(d)) == Some(d)
  {
    var yy := d.year % 100;
    Pad2Reads(yy);
    AfterYearReads(d, d.year);
    hide AfterYear, ReadAfterYear, Pad2, ReadDigits, ValidDate;
    var b := Pad2(yy) + AfterYear(d);
    assert b[..2] == Pad2(yy) && b[2..] == AfterYear(d);
    TwoDigitYear(d.year);
  }

  lemma {:induction false} TwoDigitYear(y: int)
    requires 1950 <= y < 2050
    ensures y == if y % 100 >= 50 then 1900 + y % 100 else 2000 + y % 100
  {}

  lemma {:induction false} GeneralizedReads(d: DateTime)
    requires ValidDate(d) && !(1950 <= d.year < 2050)
    ensures ReadTime(UtcOrGeneralized(d)) == Some(d) <==> 1000 <= d.year <= 9999
  {
    var y := YearBytes(d.year);
    AfterYearReads(d, d.year);
    if d.year >= 0 {
      DecimalReads(d.year);
      DecimalLength(d.year);
    } else {
      MinusIsNoDigit(y);
    }
    hide AfterYear, ReadAfterYear, DecimalBytes, ReadDigits;
    var b := y + AfterYear(d);
    if |y| == 4 {
      assert b[..4] == y && b[4..] == AfterYear(d);
    }
  }

  /** UTCTime through 2049 and GeneralizedTime from 2050 on and before 1950 (section 4.1.2.5 of RFC 5280). */
  lemma {:induction false} TimeTag(d: DateTime)
    ensures UtcOrGeneralized(d).tag == (if 1950 <= d.year <= 2049 then 23 else 24)
  {}
}
