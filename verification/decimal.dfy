/** Decimal numerals, as `strconv` and `fmt` print and read them. */
module Decimals {
  import opened Text

  predicate IsDigit(c: char) {
    '0' <= c <= '9'
  }

  predicate AllDigits(s: string) {
    forall i :: 0 <= i < |s| ==> IsDigit(s[i])
  }

  function DigitOf(c: char): (d: nat)
    requires IsDigit(c)
    ensures d < 10
  {
    (c - '0') as int
  }

  function CharOf(d: nat): (c: char)
    requires d < 10
    ensures IsDigit(c) && DigitOf(c) == d
  {
    d as char + '0'
  }

  /** `strconv.Itoa` of a natural number. */
  function Itoa(n: nat): (s: string)
    ensures s != "" && AllDigits(s)
  {
    if n < 10 then [CharOf(n)] else Itoa(n / 10) + [CharOf(n % 10)]
  }

  /** The number that digits denote. */
  function Value(s: string): nat
    requires AllDigits(s)
  {
    if s == "" then 0 else 10 * Value(s[..|s| - 1]) + DigitOf(s[|s| - 1])
  }

  lemma {:induction false} ValueItoa(n: nat)
    ensures Value(Itoa(n)) == n
  {
    if n >= 10 {
      assert Itoa(n)[..|Itoa(n)| - 1] == Itoa(n / 10);
      ValueItoa(n / 10);
    }
  }

  /** `%0*d` */
  function Pad(n: nat, width: nat): (s: string)
    ensures |s| >= width && s != "" && AllDigits(s)
    ensures |s| == if |Itoa(n)| < width then width else |Itoa(n)|
  {
    Zeros(if |Itoa(n)| < width then width - |Itoa(n)| else 0) + Itoa(n)
  }

  function Zeros(k: nat): (s: string)
    ensures |s| == k && AllDigits(s)
  {
    if k == 0 then "" else "0" + Zeros(k - 1)
  }

  lemma {:induction false} LeadingZeros(k: nat, s: string)
    requires AllDigits(s)
    ensures Value(Zeros(k) + s) == Value(s)
    decreases |s|
  {
    var z := Zeros(k) + s;
    if s == "" {
      assert z == Zeros(k);
      ZerosAreZero(k);
    } else {
      assert z[..|z| - 1] == Zeros(k) + s[..|s| - 1];
      LeadingZeros(k, s[..|s| - 1]);
    }
  }

  lemma {:induction false} ZerosAreZero(k: nat)
    ensures Value(Zeros(k)) == 0
  {
    if k > 0 {
      ZerosEnd(k);
      ZerosAreZero(k - 1);
    }
  }

  lemma {:induction false} ZerosEnd(k: nat)
    requires k > 0
    ensures Zeros(k)[k - 1] == '0' && Zeros(k)[..k - 1] == Zeros(k - 1)
  {
    if k > 1 {
      ZerosEnd(k - 1);
    }
  }

  /** Padding does not change the number, so padded numerals of different numbers differ. */
  lemma ValuePad(n: nat, width: nat)
    ensures Value(Pad(n, width)) == n
  {
    LeadingZeros(if |Itoa(n)| < width then width - |Itoa(n)| else 0, Itoa(n));
    ValueItoa(n);
  }

  function Pow10(k: nat): (r: nat)
    ensures r >= 1
  {
    if k == 0 then 1 else 10 * Pow10(k - 1)
  }

  /** A number below 10^k has at most k digits. */
  lemma {:induction false} ItoaLength(n: nat, k: nat)
    requires k >= 1 && n < Pow10(k)
    ensures |Itoa(n)| <= k
  {
    if n >= 10 {
      ItoaLength(n / 10, k - 1);
    }
  }

  lemma {:induction false} ItoaMonotone(m: nat, n: nat)
    requires m <= n
    ensures |Itoa(m)| <= |Itoa(n)|
  {
    if m >= 10 {
      ItoaMonotone(m / 10, n / 10);
    }
  }

  lemma {:induction false} DigitsAscii(s: string)
    requires AllDigits(s)
    ensures ByteLen(s) == |s|
  {
    if s != "" {
      assert IsDigit(s[0]);
      DigitsAscii(s[1..]);
    }
  }
}
