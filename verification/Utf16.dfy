/** Strings measured three ways: in characters, in UTF-16 code units and in UTF-8 bytes
    (crates/gal-ot/src/text.rs). A Dafny `char` is a Unicode scalar value, which is what a
    Rust `char` is, so a `string` stands for a Rust `String` exactly. */
module Utf16 {

  /** Code units `c` takes in UTF-16 (RFC 2781, section 2.1). */
  function Width16(c: char): (w: nat)
    ensures 1 <= w <= 2
  {
    if c as int < 0x1_0000 then 1 else 2
  }

  /** Bytes `c` takes in UTF-8 (RFC 3629, section 3). */
  function Width8(c: char): (w: nat)
    ensures 1 <= w <= 4
  {
    if c as int < 0x80 then 1 else if c as int < 0x800 then 2 else if c as int < 0x1_0000 then 3 else 4
  }

  function Len16(s: string): nat {
    if s == "" then 0 else Width16(s[0]) + Len16(s[1..])
  }

  function Len8(s: string): nat {
    if s == "" then 0 else Width8(s[0]) + Len8(s[1..])
  }

  /** How many characters it takes to cover `units` code units. A request that ends inside a
      two-unit character is rounded up to take that whole character. */
  function CharsFor(s: string, units: nat): (k: nat)
    ensures k <= |s|
  {
    if units == 0 || s == "" then 0
    else if units <= Width16(s[0]) then 1
    else 1 + CharsFor(s[1..], units - Width16(s[0]))
  }

  /** `units` code units into `s` is the edge of a character. */
  predicate OnBoundary(s: string, units: nat) {
    Len16(s[..CharsFor(s, units)]) == units
  }

  /** That many characters cover the request, as far as there are any, and one fewer would not. */
  lemma {:induction false} CoversLeast(s: string, units: nat)
    ensures var k := CharsFor(s, units);
            && (Len16(s[..k]) >= units || k == |s|)
            && (k > 0 ==> Len16(s[..k - 1]) < units)
  {
    if units > 0 && s != "" {
      var k := CharsFor(s, units);
      assert s[..k][1..] == s[1..][..k - 1];
      if units > Width16(s[0]) {
        CoversLeast(s[1..], units - Width16(s[0]));
        assert k > 1 ==> s[..k - 1][1..] == s[1..][..k - 2];
      }
    }
  }

  lemma {:induction false} Len16Append(s: string, t: string)
    ensures Len16(s + t) == Len16(s) + Len16(t)
  {
    if s == "" {
      assert s + t == t;
    } else {
      Len16Append(s[1..], t);
      assert (s + t)[1..] == s[1..] + t;
    }
  }

  lemma {:induction false} Len8Append(s: string, t: string)
    ensures Len8(s + t) == Len8(s) + Len8(t)
  {
    if s == "" {
      assert s + t == t;
    } else {
      Len8Append(s[1..], t);
      assert (s + t)[1..] == s[1..] + t;
    }
  }

  lemma {:induction false} Len16Split(s: string, k: nat)
    requires k <= |s|
    ensures Len16(s) == Len16(s[..k]) + Len16(s[k..])
  {
    Len16Append(s[..k], s[k..]);
    assert s[..k] + s[k..] == s;
  }

  lemma {:induction false} Len16AtLeast(s: string)
    ensures |s| <= Len16(s) <= 2 * |s|
  {
    if s != "" {
      Len16AtLeast(s[1..]);
    }
  }

  /** The prefix that holds `k` characters is found again from its length in code units. */
  lemma {:induction false} CharsForPrefix(s: string, k: nat)
    requires k <= |s|
    ensures CharsFor(s, Len16(s[..k])) == k
  {
    if k > 0 {
      CharsForPrefix(s[1..], k - 1);
      assert s[..k][1..] == s[1..][..k - 1];
      Len16AtLeast(s[1..][..k - 1]);
    }
  }

  /** Asking for all of a string, or more, takes all of it. */
  lemma {:induction false} CharsForAll(s: string, units: nat)
    requires Len16(s) <= units
    ensures CharsFor(s, units) == |s|
  {
    if s != "" {
      CharsForAll(s[1..], units - Width16(s[0]));
    }
  }

  /** Walking `a` units and then `b` more is walking `a + b`, when the first stop is on a boundary. */
  lemma {:induction false} CharsForSum(s: string, a: nat, b: nat)
    requires OnBoundary(s, a)
    ensures CharsFor(s, a + b) == CharsFor(s, a) + CharsFor(s[CharsFor(s, a)..], b)
  {
    hide Width16;
    var k := CharsFor(s, a);
    if a == 0 || s == "" {
      assert s[0..] == s;
    } else {
      assert s[..k][1..] == s[1..][..k - 1];
      if a <= Width16(s[0]) {
        assert s[1..] == s[k..];
      } else {
        CharsForSum(s[1..], a - Width16(s[0]), b);
        assert s[1..][k - 1..] == s[k..];
      }
    }
  }

  /** The number of characters that start before byte `at`: the inverse of measuring a prefix. */
  function CharIndex(s: string, at: nat): (k: nat)
    ensures k <= |s|
  {
    if at == 0 || s == "" then 0
    else if at <= Width8(s[0]) then 1
    else 1 + CharIndex(s[1..], at - Width8(s[0]))
  }

  lemma {:induction false} CharIndexOfPrefix(s: string, k: nat)
    requires k <= |s|
    ensures CharIndex(s, Len8(s[..k])) == k
  {
    if k > 0 {
      CharIndexOfPrefix(s[1..], k - 1);
      assert s[..k][1..] == s[1..][..k - 1];
      if k > 1 {
        assert s[1..][..k - 1] != "";
      }
    }
  }

  /** The slice between two byte positions. */
  function SliceBytes(s: string, start: nat, end: nat): string
    requires CharIndex(s, start) <= CharIndex(s, end)
  {
    s[CharIndex(s, start)..CharIndex(s, end)]
  }

  lemma {:induction false} SliceBytesChars(s: string, k: nat, m: nat)
    requires k + m <= |s|
    ensures CharIndex(s, Len8(s[..k])) <= CharIndex(s, Len8(s[..k + m]))
    ensures SliceBytes(s, Len8(s[..k]), Len8(s[..k + m])) == s[k..][..m]
  {
    CharIndexOfPrefix(s, k);
    CharIndexOfPrefix(s, k + m);
    assert s[k..][..m] == s[k..k + m];
  }

  /** Code units of `s`, counted one character at a time. */
  method Utf16Len(s: string) returns (n: nat)
    ensures n == Len16(s)
  {
    n := 0;
    for i := 0 to |s|
      invariant n == Len16(s[..i])
    {
      n := n + Width16(s[i]);
      Len16Append(s[..i], [s[i]]);
      assert s[..i + 1] == s[..i] + [s[i]];
    }
    assert s[..|s|] == s;
  }

  /** From byte `from`, where character `k` starts, go `units` code units forward and return
      the byte reached. */
  method AdvanceUtf16(s: string, from: nat, units: nat, ghost k: nat) returns (end: nat)
    requires k <= |s| && from == Len8(s[..k])
    ensures end == Len8(s[..k + CharsFor(s[k..], units)])
  {
    CharIndexOfPrefix(s, k);
    var i := CharIndex(s, from);
    var consumed := 0;
    end := from;
    while i < |s|
      invariant k <= i <= |s|
      invariant end == Len8(s[..i])
      invariant consumed < units || i == k + CharsFor(s[k..], units)
      invariant consumed < units ==> CharsFor(s[k..], units) == i - k + CharsFor(s[i..], units - consumed)
    {
      if consumed >= units {
        return;
      }
      consumed := consumed + Width16(s[i]);
      end := end + Width8(s[i]);
      Len8Append(s[..i], [s[i]]);
      assert s[..i + 1] == s[..i] + [s[i]];
      assert s[i..][1..] == s[i + 1..];
      i := i + 1;
    }
  }

  /** Characters of `s` between two offsets, each rounded up to a character; an offset past the end
      is as good as the end. */
  method Utf16Slice(s: string, start: nat, end: nat) returns (r: string)
    ensures r == s[CharsFor(s, start)..][..CharsFor(s[CharsFor(s, start)..], if end <= start then 0 else end - start)]
    ensures end <= start || start >= Len16(s) ==> r == ""
    ensures start <= end && OnBoundary(s, start) ==> CharsFor(s, start) <= CharsFor(s, end) && r == s[CharsFor(s, start)..CharsFor(s, end)]
    ensures start <= end && end >= Len16(s) ==> r == s[CharsFor(s, start)..]
  {
    hide CharsFor, OnBoundary, Len8, Len16, SliceBytes;
    SliceFacts(s, start, end);
    var startByte := AdvanceUtf16(s, 0, start, 0);
    assert s[0..] == s;
    var units := if end <= start then 0 else end - start;
    var endByte := AdvanceUtf16(s, startByte, units, CharsFor(s, start));
    SliceBytesChars(s, CharsFor(s, start), CharsFor(s[CharsFor(s, start)..], units));
    r := SliceBytes(s, startByte, endByte);
  }

  lemma {:induction false} SliceFacts(s: string, start: nat, end: nat)
    ensures Len8(s[..0]) == 0 && s[0..] == s
    ensures var k := CharsFor(s, start);
            var rest := s[k..];
            var m := CharsFor(rest, if end <= start then 0 else end - start);
            && (end <= start || start >= Len16(s) ==> rest[..m] == "")
            && (start <= end && OnBoundary(s, start) ==> k <= CharsFor(s, end) && rest[..m] == s[k..CharsFor(s, end)])
            && (start <= end && end >= Len16(s) ==> rest[..m] == rest)
  {
    hide OnBoundary;
    var k := CharsFor(s, start);
    if start >= Len16(s) {
      CharsForAll(s, start);
    }
    if start <= end {
      if OnBoundary(s, start) {
        CharsForSum(s, start, end - start);
        assert s[k..][..CharsFor(s[k..], end - start)] == s[k..CharsFor(s, end)];
      }
      if end >= Len16(s) {
        CoversRest(s, start);
        CharsForAll(s[k..], end - start);
      }
    }
  }

  /** Rounded up, an offset leaves no more of the string than is left by counting units. */
  lemma {:induction false} CoversRest(s: string, start: nat)
    ensures Len16(s[CharsFor(s, start)..]) + start <= Len16(s) || s[CharsFor(s, start)..] == ""
  {
    if start > 0 && s != "" {
      if start > Width16(s[0]) {
        CoversRest(s[1..], start - Width16(s[0]));
        assert s[1..][CharsFor(s[1..], start - Width16(s[0]))..] == s[CharsFor(s, start)..];
      } else {
        assert s[CharsFor(s, start)..] == s[1..];
      }
    } else {
      assert s[0..] == s;
    }
  }
}
