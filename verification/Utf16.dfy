/**
  UTF-16 as section 2.1 of RFC 2781 defines it, and the length function the
  renderer uses for entity offsets.
 */
module Utf16 {

  type Unit = u: int | 0 <= u < 0x1_0000

  function EncodeRune(c: char): (r: seq<Unit>)
    ensures 1 <= |r| <= 2
  {
    var u := c as int;
    if u < 0x1_0000 then [u]
    else
      var v := u - 0x1_0000;
      [0xD800 + v / 0x400, 0xDC00 + v % 0x400]
  }

  function Encode(s: string): (r: seq<Unit>)
    ensures |r| >= |s|
  {
    if s == "" then [] else EncodeRune(s[0]) + Encode(s[1..])
  }

  /** The decoder of section 2.2 of RFC 2781; an unpaired surrogate becomes U+FFFD. */
  function Decode(units: seq<Unit>): string {
    if units == [] then ""
    else if units[0] < 0xD800 || units[0] > 0xDFFF then [units[0] as char] + Decode(units[1..])
    else if units[0] <= 0xDBFF && |units| > 1 && 0xDC00 <= units[1] <= 0xDFFF then
      var high: int, low: int := units[0], units[1];
      [(0x1_0000 + (high - 0xD800) * 0x400 + (low - 0xDC00)) as char] + Decode(units[2..])
    else ['\U{FFFD}'] + Decode(units[1..])
  }

  lemma {:induction false} EncodeConcat(a: string, b: string)
    ensures Encode(a + b) == Encode(a) + Encode(b)
  {
    if a == "" {
      assert a + b == b;
    } else {
      assert (a + b)[0] == a[0] && (a + b)[1..] == a[1..] + b;
      EncodeConcat(a[1..], b);
      var x, y, z := EncodeRune(a[0]), Encode(a[1..]), Encode(b);
      assert Encode(a + b) == x + (y + z);
      assert x + (y + z) == (x + y) + z;
    }
  }

  /** One unit up to U+FFFF, and the code point itself; above, a high and a low surrogate that spell it. */
  lemma RuneExact(c: char)
    ensures c as int <= 0xFFFF ==> Encode([c]) == [c as int]
    ensures c as int > 0xFFFF ==>
              && |Encode([c])| == 2
              && var high: int, low: int := Encode([c])[0], Encode([c])[1];
                 && 0xD800 <= high <= 0xDBFF && 0xDC00 <= low <= 0xDFFF
                 && 0x1_0000 + (high - 0xD800) * 0x400 + (low - 0xDC00) == c as int
  {
    assert Encode([c]) == EncodeRune(c) + Encode([]) == EncodeRune(c);
    if c as int > 0xFFFF {
      var v := c as int - 0x1_0000;
      assert v < 0x400 * 0x400;
      assert (v / 0x400) * 0x400 + v % 0x400 == v;
    }
  }

  lemma DecodeRune(c: char, rest: seq<Unit>)
    ensures Decode(EncodeRune(c) + rest) == [c] + Decode(rest)
  {
    var units := EncodeRune(c) + rest;
    assert units[|EncodeRune(c)|..] == rest;
    if c as int >= 0x1_0000 {
      var v := c as int - 0x1_0000;
      assert v < 0x400 * 0x400;
      assert (v / 0x400) * 0x400 + v % 0x400 == v;
    }
  }

  /** Nothing is lost in UTF-16: decoding gives the text back. */
  lemma {:induction false} DecodeEncode(s: string)
    ensures Decode(Encode(s)) == s
  {
    if s != "" {
      DecodeEncode(s[1..]);
      DecodeRune(s[0], Encode(s[1..]));
    }
  }

  /** Code units of `s`: two for an astral character, one for any other. */
  method Utf16Len(s: string) returns (n: nat)
    ensures n == |Encode(s)|
  {
    n := 0;
    for i := 0 to |s|
      invariant n == |Encode(s[..i])|
    {
      if s[i] as int > 0xFFFF {
        n := n + 2;
      } else {
        n := n + 1;
      }
      assert s[..i + 1] == s[..i] + [s[i]];
      EncodeConcat(s[..i], [s[i]]);
      assert Encode([s[i]]) == EncodeRune(s[i]) + Encode([]);
    }
    assert s[..|s|] == s;
  }
}
