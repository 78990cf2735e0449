/** What the two lengths of a string measure: its UTF-16 encoding (section 2.1 of RFC 2781) and its
    UTF-8 encoding (section 3 of RFC 3629). Decoding gives the string back, so a length that was
    wrong for one character could not be the length of these. */
module Encodings {
  import opened Utf16
  import opened Deltas

  /** The character with this scalar value; the replacement character if there is none. */
  function Scalar(u: int): char {
    if 0 <= u < 0xD800 || 0xE000 <= u < 0x11_0000 then u as char else '\U{FFFD}'
  }

  // --- UTF-16 -----------------------------------------------------------

  /** The code units of one character (section 2.1 of RFC 2781). */
  function Units(c: char): (r: seq<nat>)
    ensures |r| == Width16(c)
  {
    var u := c as int;
    if Width16(c) == 1 then [u] else [0xD800 + (u - 0x10000) / 0x400, 0xDC00 + (u - 0x10000) % 0x400]
  }

  function Encode(s: string): (r: seq<nat>)
    ensures |r| == Len16(s)
  {
    if s == "" then [] else Units(s[0]) + Encode(s[1..])
  }

  predicate IsHigh(unit: nat) {
    0xD800 <= unit <= 0xDBFF
  }

  predicate IsLowUnit(unit: nat) {
    0xDC00 <= unit <= 0xDFFF
  }

  lemma {:induction false} EncodeAppend(s: string, t: string)
    ensures Encode(s + t) == Encode(s) + Encode(t)
  {
    hide Units;
    if s == "" {
      assert s + t == t;
    } else {
      EncodeAppend(s[1..], t);
      assert (s + t)[1..] == s[1..] + t;
      AppendAssociative(Units(s[0]), Encode(s[1..]), Encode(t));
    }
  }

  /** Read a string off its code units. */
  function Decode(units: seq<nat>): string {
    if units == [] then ""
    else if IsHigh(units[0]) && |units| > 1 && IsLowUnit(units[1])
    then [Scalar(0x1_0000 + (units[0] - 0xD800) * 0x400 + (units[1] - 0xDC00))] + Decode(units[2..])
    else [Scalar(units[0])] + Decode(units[1..])
  }

  lemma {:induction false} UnitsDecode(c: char)
    ensures forall i | 0 <= i < |Units(c)| :: Units(c)[i] < 0x1_0000
    ensures Width16(c) == 1 ==> !IsHigh(Units(c)[0]) && !IsLowUnit(Units(c)[0]) && Scalar(Units(c)[0]) == c
    ensures Width16(c) == 2 ==>
              && IsHigh(Units(c)[0]) && !IsLowUnit(Units(c)[0]) && IsLowUnit(Units(c)[1])
              && Scalar(0x1_0000 + (Units(c)[0] - 0xD800) * 0x400 + (Units(c)[1] - 0xDC00)) == c
  {
  }

  /** Every unit fits sixteen bits, and decoding gives the string back: `Len16` is the length of a
      UTF-16 encoding. */
  lemma {:induction false} Utf16RoundTrip(s: string)
    ensures |Encode(s)| == Len16(s) && forall i | 0 <= i < |Encode(s)| :: Encode(s)[i] < 0x1_0000
    ensures Decode(Encode(s)) == s
  {
    hide Units, IsHigh, IsLowUnit, Scalar;
    if s != "" {
      Utf16RoundTrip(s[1..]);
      UnitsDecode(s[0]);
      var units, w := Encode(s), Width16(s[0]);
      assert units[w..] == Encode(s[1..]) && units[..w] == Units(s[0]);
      assert forall i | 0 <= i < w :: units[i] == Units(s[0])[i];
      assert s == [s[0]] + s[1..];
    }
  }

  /** The units of a document that may not be cut before are the low surrogates of its text. */
  lemma {:induction false} LowIsLowSurrogate(s: string, i: nat)
    requires i < Len16(s)
    ensures IsLow(TextSyms(s)[i]) <==> IsLowUnit(Encode(s)[i])
  {
    hide Units, IsLowUnit;
    UnitsDecode(s[0]);
    var w := Width16(s[0]);
    if i < w {
      assert TextSyms(s)[i] == CharSyms(s[0])[i] && Encode(s)[i] == Units(s[0])[i];
    } else {
      LowIsLowSurrogate(s[1..], i - w);
    }
  }

  // --- UTF-8 ------------------------------------------------------------

  /** The bytes of one character. */
  function Bytes(c: char): (r: seq<nat>)
    ensures |r| == Width8(c)
  {
    var u := c as int;
    match Width8(c)
    case 1 => [u]
    case 2 => [0xC0 + u / 0x40, 0x80 + u % 0x40]
    case 3 => [0xE0 + u / 0x1000, 0x80 + u / 0x40 % 0x40, 0x80 + u % 0x40]
    case _ => [0xF0 + u / 0x4_0000, 0x80 + u / 0x1000 % 0x40, 0x80 + u / 0x40 % 0x40, 0x80 + u % 0x40]
  }

  function EncodeUtf8(s: string): (r: seq<nat>)
    ensures |r| == Len8(s)
  {
    if s == "" then [] else Bytes(s[0]) + EncodeUtf8(s[1..])
  }

  /** How many bytes a leading byte announces. */
  function Announced(lead: nat): (n: nat)
    ensures 1 <= n <= 4
  {
    if lead < 0xC0 then 1 else if lead < 0xE0 then 2 else if lead < 0xF0 then 3 else 4
  }

  /** The scalar value that one, two, three or four bytes stand for. */
  function ScalarOf(b: seq<int>): int
    requires 1 <= |b| <= 4
  {
    match |b|
    case 1 => b[0]
    case 2 => (b[0] - 0xC0) * 0x40 + (b[1] - 0x80)
    case 3 => (b[0] - 0xE0) * 0x1000 + (b[1] - 0x80) * 0x40 + (b[2] - 0x80)
    case _ => (b[0] - 0xF0) * 0x4_0000 + (b[1] - 0x80) * 0x1000 + (b[2] - 0x80) * 0x40 + (b[3] - 0x80)
  }

  /** The smallest scalar value that takes `n` bytes; a longer sequence than needed is malformed. */
  function Smallest(n: nat): int {
    if n <= 1 then 0 else if n == 2 then 0x80 else if n == 3 then 0x800 else 0x1_0000
  }

  function DecodeUtf8(bytes: seq<nat>): string {
    if bytes == [] then ""
    else
      var n := Announced(bytes[0]);
      if n > |bytes| then "\U{FFFD}"
      else
        var u := ScalarOf(bytes[..n]);
        [if u < Smallest(n) then '\U{FFFD}' else Scalar(u)] + DecodeUtf8(bytes[n..])
  }

  /** A scalar value is made up of its six-bit digits. */
  lemma {:induction false} Digits(u: nat)
    ensures u == u / 0x40 * 0x40 + u % 0x40
    ensures u == u / 0x1000 * 0x1000 + u / 0x40 % 0x40 * 0x40 + u % 0x40
    ensures u == u / 0x4_0000 * 0x4_0000 + u / 0x1000 % 0x40 * 0x1000 + u / 0x40 % 0x40 * 0x40 + u % 0x40
  {
    var v := u / 0x40;
    var w := v / 0x40;
    assert u / 0x1000 == w && u / 0x4_0000 == w / 0x40;
  }

  lemma {:induction false} BytesDecode(c: char)
    ensures forall i | 0 <= i < |Bytes(c)| :: Bytes(c)[i] < 0x100
    ensures Announced(Bytes(c)[0]) == Width8(c) && Smallest(Width8(c)) <= ScalarOf(Bytes(c)) == c as int
    ensures Scalar(c as int) == c
  {
    Digits(c as int);
  }

  /** Every byte fits eight bits, and decoding gives the string back: `Len8` is the length of a UTF-8
      encoding. */
  lemma {:induction false} Utf8RoundTrip(s: string)
    ensures |EncodeUtf8(s)| == Len8(s) && forall i | 0 <= i < |EncodeUtf8(s)| :: EncodeUtf8(s)[i] < 0x100
    ensures DecodeUtf8(EncodeUtf8(s)) == s
  {
    hide Bytes, Announced, ScalarOf, Scalar, Smallest;
    if s != "" {
      Utf8RoundTrip(s[1..]);
      BytesDecode(s[0]);
      var bytes, w := EncodeUtf8(s), Width8(s[0]);
      assert bytes[w..] == EncodeUtf8(s[1..]) && bytes[..w] == Bytes(s[0]);
      assert forall i | 0 <= i < w :: bytes[i] == Bytes(s[0])[i];
      assert s == [s[0]] + s[1..];
    }
  }
}
