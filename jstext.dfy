/** The JavaScript string built-ins the weather page relies on, on the inputs the
    page gives them: String(n) for integers, parseInt on digit strings,
    slice(0, n), padStart and `+` with a possibly undefined left operand. */
module JsText {
  import opened Wrappers

  predicate IsDigit(c: char) { '0' <= c <= '9' }

  predicate AllDigits(s: string) { forall i | 0 <= i < |s| :: IsDigit(s[i]) }

  function DigitValue(c: char): (d: nat)
    requires IsDigit(c)
    ensures d < 10
  {
    c as int - '0' as int
  }

  function DigitChar(d: nat): (c: char)
    requires d < 10
    ensures IsDigit(c) && DigitValue(c) == d
  {
    ('0' as int + d) as char
  }

  function Pow10(k: nat): (p: nat)
    ensures p >= 1
  {
    if k == 0 then 1 else 10 * Pow10(k - 1)
  }

  /** The number a string of decimal digits denotes; leading zeros are allowed. */
  function DecimalValue(s: string): (n: nat)
    requires AllDigits(s)
    ensures n < Pow10(|s|)
  {
    if s == [] then 0 else DecimalValue(s[..|s| - 1]) * 10 + DigitValue(s[|s| - 1])
  }

  /** String(n) for a non-negative integer: its shortest decimal spelling. */
  function NatToDecimal(n: nat): (s: string)
    ensures AllDigits(s) && 1 <= |s|
    decreases n
  {
    if n < 10 then [DigitChar(n)] else NatToDecimal(n / 10) + [DigitChar(n % 10)]
  }

  /** String(n) for an integer. */
  function NumberToString(n: int): (s: string)
    ensures 0 <= n ==> AllDigits(s)
    ensures n < 0 ==> |s| >= 2 && s[0] == '-' && AllDigits(s[1..])
  {
    if n < 0 then "-" + NatToDecimal(-n) else NatToDecimal(n)
  }

  /** parseInt(s) for a string made only of decimal digits; None stands for NaN.
      Leading blanks, a sign and trailing non-digits are not modelled. */
  function ParseInt(s: string): (r: Option<nat>)
    ensures r.Some? <==> s != [] && AllDigits(s)
    ensures r.Some? ==> r.value < Pow10(|s|)
  {
    if s != [] && AllDigits(s) then Some(DecimalValue(s)) else None
  }

  /** s.slice(0, n) for n >= 0: the first n characters, or all of s when it is shorter. */
  function Slice(s: string, n: nat): (r: string)
    ensures r <= s
    ensures |r| == if |s| < n then |s| else n
  {
    if |s| < n then s else s[..n]
  }

  /** s.padStart(width, fill) with a one-character fill. */
  function PadStart(s: string, width: nat, fill: char): (r: string)
    ensures |r| == if |s| < width then width else |s|
    ensures r[|r| - |s|..] == s
    ensures forall i | 0 <= i < |r| - |s| :: r[i] == fill
  {
    if |s| < width then seq(width - |s|, _ => fill) + s else s
  }

  /** `v + suffix` where v may be undefined: JavaScript spells undefined as "undefined". */
  function PlusString(v: Option<string>, suffix: string): (r: string)
    ensures |r| >= |suffix| && r[|r| - |suffix|..] == suffix
    ensures v.Some? ==> v.value <= r && |r| == |v.value| + |suffix|
    ensures v.None? ==> "undefined" <= r && |r| == 9 + |suffix|
  {
    (if v.Some? then v.value else "undefined") + suffix
  }

  /** String(n) spells n, without leading zeros. */
  lemma {:induction false} NatToDecimalValue(n: nat)
    ensures DecimalValue(NatToDecimal(n)) == n
    ensures |NatToDecimal(n)| == 1 || Pow10(|NatToDecimal(n)| - 1) <= n
    decreases n
  {
    if n >= 10 {
      NatToDecimalValue(n / 10);
      var t := NatToDecimal(n / 10);
      var s := NatToDecimal(n);
      assert s[..|s| - 1] == t;
    }
  }

  lemma {:induction false} Pow10Monotone(a: nat, b: nat)
    requires a <= b
    ensures Pow10(a) <= Pow10(b)
    decreases b
  {
    if a < b { Pow10Monotone(a, b - 1); }
  }

  /** String(n) has exactly k characters when n has k decimal digits. */
  lemma DecimalWidth(n: nat, k: nat)
    requires 1 <= k && n < Pow10(k)
    requires k == 1 || Pow10(k - 1) <= n
    ensures |NatToDecimal(n)| == k
  {
    var s := NatToDecimal(n);
    NatToDecimalValue(n);
    if |s| < k {
      Pow10Monotone(|s|, k - 1);
    } else if |s| > k {
      Pow10Monotone(k, |s| - 1);
    }
  }

  /** Leading zeros do not change the value of a digit string. */
  lemma {:induction false} LeadingZeros(z: string, s: string)
    requires forall i | 0 <= i < |z| :: z[i] == '0'
    requires AllDigits(s)
    ensures AllDigits(z + s) && DecimalValue(z + s) == DecimalValue(s)
    decreases |z| + |s|
  {
    if s == [] {
      assert z + s == z;
      if z != [] {
        LeadingZeros(z[..|z| - 1], []);
        assert z[..|z| - 1] + [] == z[..|z| - 1];
      }
    } else {
      LeadingZeros(z, s[..|s| - 1]);
      assert (z + s)[..|z + s| - 1] == z + s[..|s| - 1];
    }
  }

  /** Padding a digit string with '0' keeps its value. */
  lemma PadStartValue(s: string, width: nat)
    requires AllDigits(s)
    ensures AllDigits(PadStart(s, width, '0'))
    ensures DecimalValue(PadStart(s, width, '0')) == DecimalValue(s)
  {
    if |s| < width {
      LeadingZeros(seq(width - |s|, _ => '0'), s);
    }
  }

  /** parseInt(String(n)) == n for every non-negative integer. */
  lemma ParseIntOfNumberToString(n: nat)
    ensures ParseInt(NumberToString(n)) == Some(n)
  {
    NatToDecimalValue(n);
  }
}
