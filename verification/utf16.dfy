/** The UTF-16 validator of internal/detect/detector.go, and the encoding of RFC 2781 it decides. */
module Utf16 {
  import opened Basics
  import opened Streams

  /** A Unicode scalar value: any code point but the surrogates. */
  type Scalar = n: int | 0 <= n < 0xD800 || 0xE000 <= n <= 0x10FFFF

  type CodeUnit = n: int | 0 <= n < 0x1_0000

  const RUNE_ERROR := 0xFFFD

  predicate IsHigh(u: CodeUnit) {
    0xD800 <= u <= 0xDBFF
  }

  predicate IsLow(u: CodeUnit) {
    0xDC00 <= u <= 0xDFFF
  }

  // ----- The encoding -----

  function PutUnit(little: bool, u: CodeUnit): (s: Bytes)
    ensures |s| == 2
  {
    if little then [u % 0x100, u / 0x100] else [u / 0x100, u % 0x100]
  }

  /** `order.Uint16` */
  function GetUnit(little: bool, s: Bytes): CodeUnit
    requires |s| == 2
  {
    if little then s[0] as int + 0x100 * (s[1] as int) else s[1] as int + 0x100 * (s[0] as int)
  }

  lemma UnitInverse(little: bool, u: CodeUnit, s: Bytes)
    requires |s| == 2
    ensures GetUnit(little, PutUnit(little, u)) == u
    ensures PutUnit(little, GetUnit(little, s)) == s
  {
  }

  /** The two units of a scalar above the basic plane. Section 2.1 of RFC 2781. */
  function HighOf(c: Scalar): (u: CodeUnit)
    requires c >= 0x1_0000
    ensures IsHigh(u)
  {
    0xD800 + (c - 0x1_0000) / 0x400
  }

  function LowOf(c: Scalar): (u: CodeUnit)
    requires c >= 0x1_0000
    ensures IsLow(u)
  {
    0xDC00 + (c - 0x1_0000) % 0x400
  }

  /** `utf16.DecodeRune`. Section 2.2 of RFC 2781. */
  function DecodeRune(high: CodeUnit, low: CodeUnit): int {
    if IsHigh(high) && IsLow(low) then 0x1_0000 + 0x400 * (high - 0xD800) + (low - 0xDC00) else RUNE_ERROR
  }

  /** On a proper pair it never reports an error, so the check for one changes nothing. */
  lemma PairInverse(c: Scalar, high: CodeUnit, low: CodeUnit)
    requires c >= 0x1_0000 && IsHigh(high) && IsLow(low)
    ensures DecodeRune(HighOf(c), LowOf(c)) == c
    ensures var d := DecodeRune(high, low);
      0x1_0000 <= d <= 0x10FFFF && HighOf(d) == high && LowOf(d) == low && d != RUNE_ERROR
  {
  }

  function EncodeOne(little: bool, c: Scalar): (s: Bytes)
    ensures |s| == if c < 0x1_0000 then 2 else 4
  {
    if c < 0x1_0000 then PutUnit(little, c) else PutUnit(little, HighOf(c)) + PutUnit(little, LowOf(c))
  }

  function Encode(little: bool, cs: seq<Scalar>): Bytes {
    if cs == [] then [] else EncodeOne(little, cs[0]) + Encode(little, cs[1..])
  }

  /** The byte order mark, which tells the two orders apart, and the bytes of an ASCII character. */
  lemma ByteOrder(little: bool, c: Scalar)
    ensures Encode(little, [0xFEFF]) == if little then [0xFF, 0xFE] else [0xFE, 0xFF]
    ensures c < 0x80 ==> Encode(little, [c]) == if little then [c, 0] else [0, c]
  {
    EncodeSingle(little, 0xFEFF);
    EncodeSingle(little, c);
  }

  lemma EncodeSingle(little: bool, c: Scalar)
    ensures Encode(little, [c]) == EncodeOne(little, c)
  {
    assert [c][1..] == [];
    assert Encode(little, []) == [];
  }

  function Prepend(c: Scalar, cs: Option<seq<Scalar>>): Option<seq<Scalar>> {
    if cs.None? then None else Some([c] + cs.value)
  }

  /** The scalars a byte string encodes, if any. */
  function Decode(little: bool, s: Bytes): Option<seq<Scalar>>
    decreases |s|
  {
    if s == [] then Some([])
    else if |s| < 2 then None
    else
      var u := GetUnit(little, s[..2]);
      if IsLow(u) then None
      else if !IsHigh(u) then Prepend(u, Decode(little, s[2..]))
      else if |s| < 4 then None
      else
        var low := GetUnit(little, s[2..4]);
        if !IsLow(low) then None else Prepend(DecodeRune(u, low), Decode(little, s[4..]))
  }

  /** Encoding, then decoding. */
  lemma {:induction false} DecodeEncode(little: bool, cs: seq<Scalar>)
    ensures Decode(little, Encode(little, cs)) == Some(cs)
  {
    if cs != [] {
      var c, rest := cs[0], Encode(little, cs[1..]);
      var s := EncodeOne(little, c) + rest;
      DecodeEncode(little, cs[1..]);
      UnitInverse(little, if c < 0x1_0000 then c else HighOf(c), [0, 0]);
      assert s[..2] == PutUnit(little, if c < 0x1_0000 then c else HighOf(c));
      if c < 0x1_0000 {
        assert s[2..] == rest;
      } else {
        UnitInverse(little, LowOf(c), [0, 0]);
        assert s[2..4] == PutUnit(little, LowOf(c)) && s[4..] == rest;
        PairInverse(c, HighOf(c), LowOf(c));
      }
      assert [c] + cs[1..] == cs;
    }
  }

  /** Decoding, then encoding. */
  lemma {:induction false} EncodeDecode(little: bool, s: Bytes)
    ensures Decode(little, s).Some? ==> Encode(little, Decode(little, s).value) == s
    decreases |s|
  {
    if |s| >= 2 && Decode(little, s).Some? {
      var u := GetUnit(little, s[..2]);
      UnitInverse(little, u, s[..2]);
      if !IsHigh(u) {
        EncodeDecode(little, s[2..]);
        assert s == s[..2] + s[2..];
        assert Decode(little, s).value[1..] == Decode(little, s[2..]).value;
      } else {
        var low := GetUnit(little, s[2..4]);
        UnitInverse(little, low, s[2..4]);
        PairInverse(0x1_0000, u, low);
        EncodeDecode(little, s[4..]);
        assert s == s[..2] + s[2..4] + s[4..];
        assert Decode(little, s).value[1..] == Decode(little, s[4..]).value;
      }
    }
  }

  // ----- Text -----

  function Nuls(cs: seq<Scalar>): nat {
    if cs == [] then 0 else Nuls(cs[..|cs| - 1]) + if cs[|cs| - 1] == 0 then 1 else 0
  }

  /** At most one character in a hundred may be NUL. */
  predicate FewNuls(cs: seq<Scalar>) {
    100 * Nuls(cs) <= |cs|
  }

  predicate IsText(little: bool, s: Bytes) {
    Decode(little, s).Some? && FewNuls(Decode(little, s).value)
  }

  /** The exact language: encodings of some sequence of scalars with few NULs. */
  lemma TextIsEncoding(little: bool, s: Bytes)
    ensures IsText(little, s) <==> exists cs :: Encode(little, cs) == s && FewNuls(cs)
  {
    EncodeDecode(little, s);
    if cs :| Encode(little, cs) == s && FewNuls(cs) {
      DecodeEncode(little, cs);
    }
  }

  /** `lowNULCount` */
  function LowNulCount(runes: nat, nuls: nat): bool {
    runes == 0 || nuls <= runes / 100
  }

  lemma {:induction false} NulsBounded(cs: seq<Scalar>)
    ensures Nuls(cs) <= |cs|
  {
    if cs != [] {
      NulsBounded(cs[..|cs| - 1]);
    }
  }

  // ----- The automaton -----

  /** The bytes of a high surrogate that waits for its partner. */
  function Held(little: bool, pending: CodeUnit): Bytes {
    if pending == 0 then [] else PutUnit(little, pending)
  }

  /** All scalars: those read so far, then those still to come. */
  function Whole(cs: seq<Scalar>, more: Option<seq<Scalar>>): Option<seq<Scalar>> {
    if more.None? then None else Some(cs + more.value)
  }

  lemma WholePrepend(cs: seq<Scalar>, c: Scalar, more: Option<seq<Scalar>>)
    ensures Whole(cs, Prepend(c, more)) == Whole(cs + [c], more)
  {
    if more.Some? {
      assert cs + ([c] + more.value) == (cs + [c]) + more.value;
    }
  }

  /** What reading one more unit means for decoding, with or without a surrogate waiting. */
  lemma NextUnit(little: bool, pending: CodeUnit, pair: Bytes, rest: Bytes)
    requires |pair| == 2 && (pending != 0 ==> IsHigh(pending))
    ensures var u := GetUnit(little, pair); var d := Decode(little, Held(little, pending) + pair + rest);
      && (pending != 0 && !IsLow(u) ==> d.None?)
      && (pending != 0 && IsLow(u) ==> d == Prepend(DecodeRune(pending, u), Decode(little, rest)))
      && (pending == 0 && IsLow(u) ==> d.None?)
      && (pending == 0 && IsHigh(u) ==> d == Decode(little, Held(little, u) + rest))
      && (pending == 0 && !IsLow(u) && !IsHigh(u) ==> d == Prepend(u, Decode(little, rest)))
  {
    var u := GetUnit(little, pair);
    var s := Held(little, pending) + pair + rest;
    UnitInverse(little, u, pair);
    if pending == 0 {
      assert s == pair + rest && s[..2] == pair && s[2..] == rest;
      if IsHigh(u) {
        assert Held(little, u) == pair;
      }
    } else {
      UnitInverse(little, pending, pair);
      assert s[..2] == PutUnit(little, pending) && s[2..4] == pair && s[4..] == rest;
    }
  }

  /** A stream that ends inside a unit, or with a surrogate waiting, decodes to nothing. */
  lemma AtEnd(little: bool, pending: CodeUnit, pair: Bytes)
    requires |pair| < 2 && (pending != 0 ==> IsHigh(pending))
    ensures var d := Decode(little, Held(little, pending) + pair);
      if pending == 0 && pair == [] then d == Some([]) else d.None?
  {
    var s := Held(little, pending) + pair;
    if pending != 0 {
      UnitInverse(little, pending, [0, 0]);
      assert s[..2] == PutUnit(little, pending);
    }
  }

  /** Where one more unit takes the automaton: refused, waiting for a partner, or one scalar further. */
  method TakeUnit(little: bool, pending: CodeUnit, pair: Bytes, ghost cs: seq<Scalar>, ghost rest: Bytes)
    returns (ok: bool, next: CodeUnit, scalar: Option<Scalar>)
    requires |pair| == 2 && (pending != 0 ==> IsHigh(pending))
    ensures next != 0 ==> IsHigh(next)
    ensures !ok ==> Decode(little, Held(little, pending) + (pair + rest)).None?
    ensures ok ==> (next != 0 <==> scalar.None?) && var more := if scalar.None? then cs else cs + [scalar.value];
      Whole(cs, Decode(little, Held(little, pending) + (pair + rest))) ==
        Whole(more, Decode(little, Held(little, next) + rest))
  {
    NextUnit(little, pending, pair, rest);
    assert Held(little, pending) + (pair + rest) == Held(little, pending) + pair + rest;
    assert Held(little, 0) + rest == rest;
    hide Decode;
    ok, next, scalar := true, 0, None;
    var unit: CodeUnit := GetUnit(little, pair);
    if pending != 0 {
      if unit < 0xDC00 || unit > 0xDFFF || DecodeRune(pending, unit) == RUNE_ERROR {
        ok := false;
      } else {
        PairInverse(0x1_0000, pending, unit);
        scalar := Some(DecodeRune(pending, unit));
        WholePrepend(cs, DecodeRune(pending, unit), Decode(little, rest));
      }
    } else if 0xD800 <= unit <= 0xDBFF {
      next := unit;
    } else if 0xDC00 <= unit <= 0xDFFF {
      ok := false;
    } else {
      scalar := Some(unit);
      WholePrepend(cs, unit, Decode(little, rest));
    }
  }

  lemma WholeStart(little: bool, s: Bytes)
    ensures Decode(little, s) == Whole([], Decode(little, Held(little, 0) + s))
  {
    assert Held(little, 0) + s == s;
    hide Decode;
    if Decode(little, s).Some? {
      assert [] + Decode(little, s).value == Decode(little, s).value;
    }
  }

  /** The verdict at the end of the stream. */
  lemma WholeEnd(little: bool, s: Bytes, cs: seq<Scalar>, pending: CodeUnit, pair: Bytes)
    requires |pair| < 2 && (pending != 0 ==> IsHigh(pending))
    requires Decode(little, s) == Whole(cs, Decode(little, Held(little, pending) + pair))
    ensures IsText(little, s) <==> pair == [] && pending == 0 && LowNulCount(|cs|, Nuls(cs))
  {
    AtEnd(little, pending, pair);
    NulsBounded(cs);
    assert cs + [] == cs;
  }

  /**
   `validUTF16`, after the byte-order mark. A verdict is exact; there is none only if the
   stream breaks. The counters are those of the decoded text.
   */
  method ValidUtf16(src: Source, little: bool) returns (r: Result<bool, StreamError>)
    modifies src
    ensures r == Ok(true) ==> src.end == Eof && IsText(little, old(src.rest))
    ensures r == Ok(false) ==> !IsText(little, old(src.rest))
    ensures r.Err? ==> src.end == Broken(r.error)
  {
    var runes: nat, nuls: nat, pending: CodeUnit := 0, 0, 0;
    ghost var cs: seq<Scalar> := [];
    var done := false;
    r := Ok(false);
    WholeStart(little, src.rest);
    hide Decode, IsText, Nuls, LowNulCount;
    assert Nuls([]) == 0 by {
      NoNuls();
    }
    while !done
      invariant pending != 0 ==> IsHigh(pending)
      invariant runes == |cs| && nuls == Nuls(cs)
      invariant !done ==> Decode(little, old(src.rest)) == Whole(cs, Decode(little, Held(little, pending) + src.rest))
      invariant done && r == Ok(true) ==> src.end == Eof && IsText(little, old(src.rest))
      invariant done && r == Ok(false) ==> !IsText(little, old(src.rest))
      invariant done && r.Err? ==> src.end == Broken(r.error)
      decreases !done, |src.rest|
    {
      var pair, end := src.ReadPair();
      if end.Some? {
        assert pair + [] == pair;
        WholeEnd(little, old(src.rest), cs, pending, pair);
        done := true;
        r := match end.value
             case Broken(e) => Err(e)
             case Eof => Ok(pair == [] && pending == 0 && LowNulCount(runes, nuls));
      } else {
        var ok, next, scalar := TakeUnit(little, pending, pair, cs, src.rest);
        if !ok {
          NotText(little, old(src.rest), cs);
          done, r := true, Ok(false);
        } else if scalar.Some? {
          NulsSnoc(cs, scalar.value);
          cs := cs + [scalar.value];
          runes := runes + 1;
          nuls := nuls + if scalar.value == 0 then 1 else 0;
        }
        pending := next;
      }
    }
  }

  lemma NoNuls()
    ensures Nuls([]) == 0
  {
  }

  lemma NulsSnoc(cs: seq<Scalar>, c: Scalar)
    ensures Nuls(cs + [c]) == Nuls(cs) + if c == 0 then 1 else 0
  {
    assert (cs + [c])[..|cs|] == cs;
  }

  lemma NotText(little: bool, s: Bytes, cs: seq<Scalar>)
    requires Decode(little, s) == Whole(cs, None)
    ensures !IsText(little, s)
  {
  }
}
