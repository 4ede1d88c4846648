/** Byte sizes as the configuration writes them: internal/config/config.go. */
module ByteSizes {
  import opened Basics
  import opened Text
  import opened Decimals
  import opened BoundedCopy
  import opened Names

  const KIB := 1024
  const MIB := 1024 * 1024
  const GIB := 1024 * 1024 * 1024
  const TIB := 1024 * 1024 * 1024 * 1024

  // ----- Parsing -----

  /** How many digits a string starts with. */
  function LeadingDigits(s: string): (n: nat)
    ensures n <= |s| && AllDigits(s[..n])
    ensures n < |s| ==> !IsDigit(s[n])
  {
    if s == "" || !IsDigit(s[0]) then 0
    else
      assert s[..1 + LeadingDigits(s[1..])] == [s[0]] + s[1..][..LeadingDigits(s[1..])];
      1 + LeadingDigits(s[1..])
  }

  /**
   `unicode.ToLower` as far as it can yield the letter of a unit: besides the capital
   letters, the Kelvin sign and the dotted capital I do.
   */
  function Lower(c: char): char {
    if 'A' <= c <= 'Z' then (c - 'A') + 'a'
    else if c == '\U{212A}' then 'k'
    else if c == '\U{130}' then 'i'
    else c
  }

  function LowerAll(s: string): (r: string)
    ensures |r| == |s|
  {
    seq(|s|, i requires 0 <= i < |s| => Lower(s[i]))
  }

  function Multiplier(unit: string): Option<nat> {
    var u := LowerAll(unit);
    if u == "" || u == "b" then Some(1)
    else if u == "kb" then Some(1_000)
    else if u == "kib" then Some(KIB)
    else if u == "mb" then Some(1_000_000)
    else if u == "mib" then Some(MIB)
    else if u == "gb" then Some(1_000_000_000)
    else if u == "gib" then Some(GIB)
    else if u == "tb" then Some(1_000_000_000_000)
    else if u == "tib" then Some(TIB)
    else None
  }

  lemma MultiplierPositive(unit: string)
    ensures Multiplier(unit).Some? ==> Multiplier(unit).value > 0
  {
  }

  function Power(base: nat, k: nat): nat {
    if k == 0 then 1 else base * Power(base, k - 1)
  }

  lemma Powers()
    ensures Power(1000, 1) == 1_000 && Power(1000, 2) == 1_000_000
    ensures Power(1000, 3) == 1_000_000_000 && Power(1000, 4) == 1_000_000_000_000
    ensures Power(1024, 1) == KIB && Power(1024, 2) == MIB && Power(1024, 3) == GIB && Power(1024, 4) == TIB
  {
    assert Power(1000, 0) == 1 && Power(1024, 0) == 1;
    assert Power(1000, 1) == 1000 && Power(1024, 1) == 1024;
    assert Power(1000, 2) == 1000 * 1000 && Power(1024, 2) == 1024 * 1024;
    assert Power(1000, 3) == 1000 * 1_000_000 && Power(1024, 3) == 1024 * 1_048_576;
  }

  /** A letter of "kmgt" in front of "b" stands for a power of 1000, in front of "ib" for one of 1024. */
  ghost predicate Unit(unit: string, m: nat) {
    || (unit in {"", "b"} && m == 1)
    || exists k: nat {:trigger Power(1000, k)} {:trigger Power(1024, k)} :: 1 <= k <= 4 && (
         || (unit == ["kmgt"[k - 1]] + "b" && m == Power(1000, k))
         || (unit == ["kmgt"[k - 1]] + "ib" && m == Power(1024, k)))
  }

  /** The table of units is exactly that, in any case of letters. */
  lemma MultiplierIsPower(unit: string, m: nat)
    ensures Multiplier(unit) == Some(m) <==> Unit(LowerAll(unit), m)
  {
    Powers();
    hide LowerAll, Power;
    assert ["kmgt"[0]] == "k" && ["kmgt"[1]] == "m" && ["kmgt"[2]] == "g" && ["kmgt"[3]] == "t";
    assert "k" + "b" == "kb" && "m" + "b" == "mb" && "g" + "b" == "gb" && "t" + "b" == "tb";
    assert "k" + "ib" == "kib" && "m" + "ib" == "mib" && "g" + "ib" == "gib" && "t" + "ib" == "tib";
    if Unit(LowerAll(unit), m) && LowerAll(unit) !in {"", "b"} {
      var k: nat :| 1 <= k <= 4 && (
         || (LowerAll(unit) == ["kmgt"[k - 1]] + "b" && m == Power(1000, k))
         || (LowerAll(unit) == ["kmgt"[k - 1]] + "ib" && m == Power(1024, k)));
      assert k == 1 || k == 2 || k == 3 || k == 4;
    }
  }

  /** A size in mathematical terms: digits, a unit, and a product that fits. */
  function SizeOf(value: string): Option<nat> {
    var s := TrimSpace(value);
    var n := LeadingDigits(s);
    var m := Multiplier(s[n..]);
    if n == 0 || m.None? || Value(s[..n]) * m.value > MAX_INT64 then None else Some(Value(s[..n]) * m.value)
  }

  /** A guard by division decides exactly whether the product stays within the limit. */
  lemma GuardIsProduct(limit: nat, n: nat, m: nat)
    requires m > 0
    ensures n > limit / m <==> n * m > limit
    ensures n <= n * m
  {
    var q, r := limit / m, limit % m;
    assert limit == q * m + r && r < m;
    if n > q {
      MoreTimes(q + 1, n, m);
    } else {
      MoreTimes(n, q, m);
    }
    MoreTimes(1, m, n);
  }

  lemma MoreTimes(a: nat, b: nat, m: nat)
    requires a <= b
    ensures a * m <= b * m
  {
  }

  lemma WholeTimes(b: nat, m: nat)
    requires m > 0 && b % m == 0
    ensures (b / m) * m == b
  {
  }

  /** `strconv.ParseInt` of digits, for 64 bits. */
  function ParseInt(digits: string): Option<nat>
    requires AllDigits(digits)
  {
    if Value(digits) <= MAX_INT64 then Some(Value(digits)) else None
  }

  lemma {:induction false} DigitsSoFar(s: string, i: nat)
    requires i <= |s| && AllDigits(s[..i]) && (i < |s| ==> !IsDigit(s[i]))
    ensures LeadingDigits(s) == i
  {
    if i > 0 {
      assert s[..i][0] == s[0] && s[..i][1..] == s[1..][..i - 1];
      DigitsSoFar(s[1..], i - 1);
    }
  }

  /** `ParseByteSize`: what it returns is the product, and nothing that fits is refused. */
  method ParseByteSize(value: string) returns (r: Option<nat>)
    ensures r == SizeOf(value)
  {
    var s := TrimSpace(value);
    var i := 0;
    while i < |s| && '0' <= s[i] <= '9'
      invariant 0 <= i <= |s| && AllDigits(s[..i])
    {
      assert s[..i + 1] == s[..i] + [s[i]];
      i := i + 1;
    }
    DigitsSoFar(s, i);
    if i == 0 {
      return None;
    }
    var m := Multiplier(s[i..]);
    if m.None? {
      return None;
    }
    MultiplierPositive(s[i..]);
    GuardIsProduct(MAX_INT64, Value(s[..i]), m.value);
    var n := ParseInt(s[..i]);
    if n.None? || n.value > MAX_INT64 / m.value {
      return None;
    }
    r := Some(n.value * m.value);
  }

  // ----- Printing -----

  /** `ByteSize.String`, for sizes that are not negative. */
  function Print(b: nat): string {
    if b >= GIB && b % GIB == 0 then Itoa(b / GIB) + "GiB"
    else if b >= MIB && b % MIB == 0 then Itoa(b / MIB) + "MiB"
    else if b >= KIB && b % KIB == 0 then Itoa(b / KIB) + "KiB"
    else Itoa(b) + "B"
  }

  lemma LettersNotSpace(s: string)
    requires s != "" && IsDigit(s[0]) && s[|s| - 1] == 'B'
    ensures TrimSpace(s) == s
  {
  }

  /** A numeral with one of the printed units is read as the product. */
  lemma NumeralRead(n: nat, unit: string, m: nat)
    requires
      || (unit == "GiB" && m == GIB) || (unit == "MiB" && m == MIB) || (unit == "KiB" && m == KIB)
      || (unit == "B" && m == 1)
    requires n * m <= MAX_INT64
    ensures SizeOf(Itoa(n) + unit) == Some(n * m)
  {
    var s, i := Itoa(n) + unit, |Itoa(n)|;
    UnitsRead(unit, m);
    hide TrimSpace, Multiplier, Itoa, LeadingDigits;
    assert s[..i] == Itoa(n) && s[i..] == unit;
    assert IsDigit(s[0]) && s[|s| - 1] == 'B' && !IsDigit(s[i]);
    LettersNotSpace(s);
    DigitsSoFar(s, i);
    ValueItoa(n);
  }

  /** A unit neither begins with a digit nor ends in a space. */
  lemma UnitEnds(unit: string)
    requires Multiplier(unit).Some? && unit != ""
    ensures !IsDigit(unit[0]) && !IsSpace(unit[|unit| - 1])
  {
    var u := LowerAll(unit);
    assert u[0] in "bkmgt" && u[|u| - 1] == 'b';
    assert u[0] == Lower(unit[0]) && u[|u| - 1] == Lower(unit[|unit| - 1]);
  }

  /** Any numeral with any unit, with spaces around it, is read as the product if that fits, and refused otherwise. */
  lemma SizeRead(front: string, digits: string, unit: string, back: string)
    requires AllSpace(front) && AllSpace(back) && digits != "" && AllDigits(digits) && Multiplier(unit).Some?
    ensures var size := Value(digits) * Multiplier(unit).value;
      SizeOf(front + (digits + unit) + back) == if size <= MAX_INT64 then Some(size) else None
  {
    var s, i := digits + unit, |digits|;
    if unit != "" {
      UnitEnds(unit);
    }
    assert IsDigit(s[0]) && (i < |s| ==> !IsDigit(s[i])) && s[..i] == digits && s[i..] == unit;
    DigitNotSpace(s[0]);
    if unit == "" {
      assert IsDigit(s[|s| - 1]);
      DigitNotSpace(s[|s| - 1]);
    }
    SpaceTrimmed(front, s, back);
    DigitsSoFar(s, i);
    hide TrimSpace, Multiplier, IsSpace;
  }

  lemma DigitNotSpace(c: char)
    requires IsDigit(c)
    ensures !IsSpace(c)
  {
  }

  lemma UnitsRead(unit: string, m: nat)
    requires
      || (unit == "GiB" && m == GIB) || (unit == "MiB" && m == MIB) || (unit == "KiB" && m == KIB)
      || (unit == "B" && m == 1)
    ensures Multiplier(unit) == Some(m) && !IsDigit(unit[0]) && unit[|unit| - 1] == 'B'
  {
    assert LowerAll("GiB") == "gib" && LowerAll("MiB") == "mib" && LowerAll("KiB") == "kib" && LowerAll("B") == "b";
    assert "gib"[0] == 'g' && "mib"[0] == 'm' && "kib"[0] == 'k';
  }

  /** What is printed is read back, for every size a 64-bit integer holds. */
  lemma PrintThenParse(b: nat)
    requires b <= MAX_INT64
    ensures SizeOf(Print(b)) == Some(b)
  {
    hide SizeOf, GIB, MIB, KIB;
    UnitsPositive();
    if b >= GIB && b % GIB == 0 {
      WholeTimes(b, GIB);
      NumeralRead(b / GIB, "GiB", GIB);
    } else if b >= MIB && b % MIB == 0 {
      WholeTimes(b, MIB);
      NumeralRead(b / MIB, "MiB", MIB);
    } else if b >= KIB && b % KIB == 0 {
      WholeTimes(b, KIB);
      NumeralRead(b / KIB, "KiB", KIB);
    } else {
      NumeralRead(b, "B", 1);
    }
  }

  lemma UnitsPositive()
    ensures GIB > 0 && MIB > 0 && KIB > 0
  {
  }
}
