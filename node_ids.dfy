/**
 * Node identifiers "n{index}": the decimal rendering of a number (Python's f-string) and the
 * parse back (Python's int() on the text after the leading "n").
 */
module NodeIds {
  import opened Wrappers

  predicate IsDigit(c: char) { '0' <= c <= '9' }

  function DigitChar(d: nat): (c: char)
    requires d < 10
    ensures IsDigit(c) && c as int - '0' as int == d
  {
    ('0' as int + d) as char
  }

  function DigitValue(c: char): (d: nat)
    requires IsDigit(c)
    ensures d < 10
  {
    c as int - '0' as int
  }

  /** The decimal text of n, without leading zeros. */
  function Decimal(n: nat): (s: string)
    ensures |s| > 0 && forall i :: 0 <= i < |s| ==> IsDigit(s[i])
  {
    if n < 10 then [DigitChar(n)] else Decimal(n / 10) + [DigitChar(n % 10)]
  }

  predicate AllDigits(s: string) {
    forall i :: 0 <= i < |s| ==> IsDigit(s[i])
  }

  function DigitsValue(s: string): nat
    requires AllDigits(s)
    decreases |s|
  {
    if |s| == 0 then 0 else DigitsValue(s[..|s| - 1]) * 10 + DigitValue(s[|s| - 1])
  }

  /** int(s) for a non-empty run of ASCII digits; anything else is a ValueError (None). */
  function ParseDecimal(s: string): Option<nat> {
    if |s| > 0 && AllDigits(s) then Some(DigitsValue(s)) else None
  }

  lemma {:induction false} DecimalRoundTrip(n: nat)
    ensures ParseDecimal(Decimal(n)) == Some(n)
  {
    var s := Decimal(n);
    if n >= 10 {
      DecimalRoundTrip(n / 10);
      assert s[..|s| - 1] == Decimal(n / 10);
      assert DigitValue(DigitChar(n % 10)) == n % 10;
    } else {
      assert s == [DigitChar(n)];
      assert DigitsValue(s[..0]) == 0 by { assert s[..0] == []; }
      assert DigitsValue(s) == n;
    }
  }

  function NodeName(i: nat): string {
    "n" + Decimal(i)
  }

  /** The number in an id of the form "n<digits>", as integrate_nrwn_tracks reads it. */
  function NodeNumber(id: string): Option<nat> {
    if |id| > 0 && id[0] == 'n' then ParseDecimal(id[1..]) else None
  }

  lemma {:induction false} NodeNumberOfName(i: nat)
    ensures NodeNumber(NodeName(i)) == Some(i)
  {
    assert NodeName(i)[1..] == Decimal(i);
    DecimalRoundTrip(i);
  }

  /** Minted ids never collide: n{i} and n{j} are the same text only for the same index. */
  lemma {:induction false} NodeNameInjective(i: nat, j: nat)
    ensures NodeName(i) == NodeName(j) ==> i == j
  {
    NodeNumberOfName(i);
    NodeNumberOfName(j);
  }
}
