/** UTF-8, section 3 of RFC 3629: what `len` and the order of Go strings are about. */
module Utf8 {
  import opened Basics
  import opened Text

  /** The bytes of one code point. */
  function EncodeChar(c: char): (s: Bytes)
    ensures s != []
  {
    var n := c as int;
    var q := n / 0x40;
    var p := q / 0x40;
    if n < 0x80 then [n]
    else if n < 0x800 then [0xC0 + q, 0x80 + n % 0x40]
    else if n < 0x1_0000 then [0xE0 + p, 0x80 + q % 0x40, 0x80 + n % 0x40]
    else [0xF0 + p / 0x40, 0x80 + p % 0x40, 0x80 + q % 0x40, 0x80 + n % 0x40]
  }

  function Encode(s: string): Bytes {
    if s == "" then [] else EncodeChar(s[0]) + Encode(s[1..])
  }

  /** Comparing two byte strings as Go does. */
  predicate BytesLess(a: Bytes, b: Bytes) {
    if b == [] then false
    else if a == [] then true
    else a[0] < b[0] || (a[0] == b[0] && BytesLess(a[1..], b[1..]))
  }

  /** `len` counts bytes. */
  lemma {:induction false} LengthKept(s: string)
    ensures ByteLen(s) == |Encode(s)|
  {
    if s != "" {
      LengthKept(s[1..]);
    }
  }

  lemma {:induction false} SameFront(a: Bytes, x: Bytes, y: Bytes)
    ensures BytesLess(a + x, a + y) <==> BytesLess(x, y)
  {
    if a == [] {
      assert a + x == x && a + y == y;
    } else {
      assert (a + x)[1..] == a[1..] + x && (a + y)[1..] == a[1..] + y;
      SameFront(a[1..], x, y);
    }
  }

  lemma {:induction false} SplitLess(a: Bytes, b: Bytes, x: Bytes, y: Bytes, n: nat)
    requires n < |a| && n < |b| && a[..n] == b[..n] && a[n] < b[n]
    ensures BytesLess(a + x, b + y)
  {
    assert a + x == a[..n] + (a[n..] + x) && b + y == b[..n] + (b[n..] + y);
    SameFront(a[..n], a[n..] + x, b[n..] + y);
    assert (a[n..] + x)[0] == a[n] && (b[n..] + y)[0] == b[n];
  }

  /** Where two numbers of the same length in base 64 differ first, given where their quotients do. */
  lemma NextDigit(n: nat, m: nat)
    requires n < m
    ensures n / 0x40 < m / 0x40 || (n / 0x40 == m / 0x40 && n % 0x40 < m % 0x40)
  {
  }

  /** Where the bytes of two code points in order differ first. */
  lemma FirstDifference(c: char, d: char) returns (i: nat)
    requires c < d
    ensures var a, b := EncodeChar(c), EncodeChar(d); i < |a| && i < |b| && a[..i] == b[..i] && a[i] < b[i]
  {
    var n, m := c as int, d as int;
    var q, r := n / 0x40, m / 0x40;
    NextDigit(n, m);
    if q < r {
      NextDigit(q, r);
      if q / 0x40 < r / 0x40 {
        NextDigit(q / 0x40, r / 0x40);
      }
    }
    i := DifferenceAt(c, d);
    var a, b := EncodeChar(c), EncodeChar(d);
    assert a[..i] == b[..i];
  }

  lemma DifferenceAt(c: char, d: char) returns (i: nat)
    requires c < d
    requires var n, m := c as int, d as int;
      var q, r := n / 0x40, m / 0x40;
      && (q < r || (q == r && n % 0x40 < m % 0x40))
      && (q < r ==> q / 0x40 < r / 0x40 || (q / 0x40 == r / 0x40 && q % 0x40 < r % 0x40))
      && (q / 0x40 < r / 0x40 ==>
            || q / 0x40 / 0x40 < r / 0x40 / 0x40
            || (q / 0x40 / 0x40 == r / 0x40 / 0x40 && q / 0x40 % 0x40 < r / 0x40 % 0x40))
    ensures var a, b := EncodeChar(c), EncodeChar(d);
      i < |a| && i < |b| && (forall k :: 0 <= k < i ==> a[k] == b[k]) && a[i] < b[i]
  {
    var a, b := EncodeChar(c), EncodeChar(d);
    i := if a[0] < b[0] then 0 else if a[1] < b[1] then 1 else if a[2] < b[2] then 2 else 3;
  }

  /** A smaller code point has the smaller bytes, whatever follows. */
  lemma CharOrder(c: char, d: char, x: Bytes, y: Bytes)
    requires c < d
    ensures BytesLess(EncodeChar(c) + x, EncodeChar(d) + y)
  {
    hide EncodeChar, BytesLess;
    var i := FirstDifference(c, d);
    SplitLess(EncodeChar(c), EncodeChar(d), x, y, i);
  }

  /** So comparing strings byte by byte is comparing their code points. */
  lemma {:induction false} OrderKept(s: string, t: string)
    ensures Less(s, t) <==> BytesLess(Encode(s), Encode(t))
  {
    hide EncodeChar;
    if s != "" && t != "" {
      var x, y := Encode(s[1..]), Encode(t[1..]);
      if s[0] < t[0] {
        CharOrder(s[0], t[0], x, y);
      } else if t[0] < s[0] {
        CharOrder(t[0], s[0], y, x);
        NotBoth(Encode(s), Encode(t));
      } else {
        OrderKept(s[1..], t[1..]);
        SameFront(EncodeChar(s[0]), x, y);
      }
    }
  }

  lemma {:induction false} NotBoth(a: Bytes, b: Bytes)
    ensures !(BytesLess(a, b) && BytesLess(b, a))
  {
    if a != [] && b != [] {
      NotBoth(a[1..], b[1..]);
    }
  }
}
