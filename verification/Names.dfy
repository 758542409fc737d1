/** The few string operations the servers use on DNS names. */
module Names {
  function LowerChar(c: char): char {
    if 'A' <= c <= 'Z' then c - 'A' + 'a' else c
  }

  /** `toLowerCase` on ASCII names. */
  function Lower(s: string): (r: string)
    ensures |r| == |s|
    ensures forall i :: 0 <= i < |s| ==> r[i] == LowerChar(s[i])
  {
    seq(|s|, i requires 0 <= i < |s| => LowerChar(s[i]))
  }

  function Digit(d: nat): char
    requires d < 10
  {
    "0123456789"[d]
  }

  /** A number in decimal, as in a template string. */
  function Decimal(n: nat): string {
    if n < 10 then [Digit(n)] else Decimal(n / 10) + [Digit(n % 10)]
  }

  predicate StartsWith(s: string, prefix: string) {
    |prefix| <= |s| && s[..|prefix|] == prefix
  }

  predicate EndsWith(s: string, suffix: string) {
    |suffix| <= |s| && s[|s| - |suffix|..] == suffix
  }

  predicate IsWildcard(s: string) {
    StartsWith(s, "*.")
  }

  lemma {:induction false} LowerConcat(a: string, b: string)
    ensures Lower(a + b) == Lower(a) + Lower(b)
  {}

  /** A name is under `base`: base itself, or with labels in front of it. */
  ghost predicate IsAtOrUnder(name: string, base: string) {
    name == base || exists labels: string :: name == labels + "." + base
  }

  lemma {:induction false} EndsIff(name: string, base: string)
    ensures name == base || EndsWith(name, "." + base) <==> IsAtOrUnder(name, base)
  {
    if EndsWith(name, "." + base) {
      var labels := name[..|name| - |base| - 1];
      assert name == labels + "." + base;
    }
    if labels: string :| name == labels + "." + base {
      assert name[|labels|..] == "." + base;
    }
  }

  /** The number that decimal digits denote. */
  function DecimalValue(s: string): int {
    if s == "" then 0 else 10 * DecimalValue(s[..|s| - 1]) + (s[|s| - 1] as int - '0' as int)
  }

  lemma {:induction false} DigitIs(d: nat)
    requires d < 10
    ensures '0' <= Digit(d) <= '9' && Digit(d) as int - '0' as int == d
  {}

  /** A number is written in digits, without a leading zero, and can be read back. */
  lemma {:induction false} DecimalReads(n: nat)
    ensures Decimal(n) != "" && DecimalValue(Decimal(n)) == n
    ensures forall c :: c in Decimal(n) ==> '0' <= c <= '9'
    ensures n > 0 ==> Decimal(n)[0] != '0'
  {
    var init := if n < 10 then "" else Decimal(n / 10);
    var last := Digit(n % 10);
    assert Decimal(n) == init + [last];
    DigitIs(n % 10);
    if n >= 10 { DecimalReads(n / 10); }
    hide Decimal, Digit;
    assert (init + [last])[..|init|] == init;
  }

  const UPPER := "ABCDEFGHIJKLMNOPQRSTUVWXYZ"
  const LOWER := "abcdefghijklmnopqrstuvwxyz"

  /** A capital letter becomes the small letter of the same place in the alphabet, and nothing
      else changes. */
  lemma {:induction false} LowerIs(s: string, i: nat)
    requires i < |s|
    ensures |Lower(s)| == |s|
    ensures forall k :: 0 <= k < 26 && s[i] == UPPER[k] ==> Lower(s)[i] == LOWER[k]
    ensures s[i] !in UPPER ==> Lower(s)[i] == s[i]
  {
    if 'A' <= s[i] <= 'Z' { Letter(s[i]); }
  }

  lemma {:induction false} Letter(c: char)
    requires 'A' <= c <= 'Z'
    ensures UPPER[c as int - 'A' as int] == c && LOWER[c as int - 'A' as int] == c - 'A' + 'a'
  {}
}
