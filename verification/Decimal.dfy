/**
  Ids as text: unsigned decimal numbers as strconv prints and reads them, and
  the 32-bit conversions of the wire format.
 */
module Decimal {
  import opened Protowire

  // ----- 64-bit decimals -----

  predicate IsDigit(c: Byte) {
    48 <= c <= 57
  }

  predicate AllDigits(s: Bytes) {
    forall c <- s :: IsDigit(c)
  }

  /** `n` with one more digit. */
  function Next(n: nat, c: Byte): nat
    requires IsDigit(c)
  {
    var digit: int := c;
    n * 10 + (digit - 48)
  }

  /** The number that `n` followed by the digits `s` denotes. */
  function ValueFrom(n: nat, s: Bytes): nat
    requires AllDigits(s)
    decreases |s|
  {
    if s == [] then n else ValueFrom(Next(n, s[0]), s[1..])
  }

  datatype Number = Is(v: nat) | Syntax | Range

  function ParseFrom(n: nat, s: Bytes): Number
    decreases |s|
  {
    if s == [] then Is(n)
    else if !IsDigit(s[0]) then Syntax
    else if Next(n, s[0]) >= U64 then Range
    else ParseFrom(Next(n, s[0]), s[1..])
  }

  /** strconv.ParseUint(s, 10, 64): the value, a syntax error, or a range error. */
  function ParseUint(s: Bytes): Number {
    if s == [] then Syntax else ParseFrom(0, s)
  }

  /** strconv.FormatUint(v, 10). */
  function FormatUint(v: nat): (s: Bytes)
    ensures s != []
  {
    if v < 10 then [48 + v] else FormatUint(v / 10) + [48 + v % 10]
  }

  /** Digits `s` that start with an overlong number, read after `n`. */
  ghost predicate Overlong(n: nat, s: Bytes) {
    exists k :: 0 < k <= |s| && AllDigits(s[..k]) && ValueFrom(n, s[..k]) >= U64
  }

  lemma {:induction false} ValueGrows(n: nat, s: Bytes)
    requires AllDigits(s)
    ensures ValueFrom(n, s) >= n
    decreases |s|
  {
    if s != [] {
      ValueGrows(Next(n, s[0]), s[1..]);
    }
  }

  lemma OverlongStep(n: nat, s: Bytes)
    requires s != [] && IsDigit(s[0])
    ensures var next := Next(n, s[0]);
            Overlong(n, s) <==> next >= U64 || Overlong(next, s[1..])
  {
    var next := Next(n, s[0]);
    if Overlong(n, s) {
      var k :| 0 < k <= |s| && AllDigits(s[..k]) && ValueFrom(n, s[..k]) >= U64;
      assert s[..k][1..] == s[1..][..k - 1];
      if k > 1 {
        assert AllDigits(s[1..][..k - 1]);
      }
    }
    if next >= U64 {
      assert AllDigits(s[..1]) && ValueFrom(n, s[..1]) == next;
    }
    if Overlong(next, s[1..]) {
      var k :| 0 < k <= |s[1..]| && AllDigits(s[1..][..k]) && ValueFrom(next, s[1..][..k]) >= U64;
      assert s[..k + 1] == [s[0]] + s[1..][..k] && s[..k + 1][1..] == s[1..][..k];
      assert ValueFrom(n, s[..k + 1]) >= U64;
    }
  }

  lemma {:induction false} ParseFromExact(n: nat, s: Bytes)
    requires n < U64
    ensures ParseFrom(n, s).Range? <==> Overlong(n, s)
    ensures ParseFrom(n, s).Is? <==> AllDigits(s) && ValueFrom(n, s) < U64
    ensures ParseFrom(n, s).Is? ==> ParseFrom(n, s).v == ValueFrom(n, s)
    decreases |s|
  {
    if s == [] {
    } else if IsDigit(s[0]) {
      var next := Next(n, s[0]);
      OverlongStep(n, s);
      assert s == [s[0]] + s[1..];
      if next < U64 {
        ParseFromExact(next, s[1..]);
      } else if AllDigits(s) {
        ValueGrows(next, s[1..]);
      }
    } else {
      forall k | 0 < k <= |s| ensures !AllDigits(s[..k]) {
        assert s[0] == s[..k][0];
      }
    }
  }

  /** A number is read exactly when it is one and fits; overflow is reported before a later bad character. */
  lemma ParseUintExact(s: Bytes)
    ensures ParseUint(s).Is? <==> s != [] && AllDigits(s) && ValueFrom(0, s) < U64
    ensures ParseUint(s).Is? ==> ParseUint(s).v == ValueFrom(0, s)
    ensures ParseUint(s).Range? <==> Overlong(0, s)
  {
    ParseFromExact(0, s);
  }

  lemma {:induction false} ValueSnoc(n: nat, s: Bytes, c: Byte)
    requires AllDigits(s) && IsDigit(c)
    ensures AllDigits(s + [c]) && ValueFrom(n, s + [c]) == Next(ValueFrom(n, s), c)
    decreases |s|
  {
    if s == [] {
      assert s + [c] == [c];
    } else {
      assert (s + [c])[0] == s[0] && (s + [c])[1..] == s[1..] + [c];
      ValueSnoc(Next(n, s[0]), s[1..], c);
    }
  }

  lemma {:induction false} FormatValue(v: nat)
    ensures AllDigits(FormatUint(v)) && ValueFrom(0, FormatUint(v)) == v
  {
    if v >= 10 {
      FormatValue(v / 10);
      ValueSnoc(0, FormatUint(v / 10), 48 + v % 10);
    } else {
      ValueSnoc(0, [], 48 + v);
      assert [] + [48 + v] == FormatUint(v);
    }
  }

  /** No leading zeros, and zero is "0". */
  lemma {:induction false} FormatShortest(v: nat)
    ensures if v == 0 then FormatUint(v) == [48] else FormatUint(v)[0] != 48
  {
    if v >= 10 {
      FormatShortest(v / 10);
    }
  }

  /** Printing an id and reading it back gives the id. */
  lemma ParseFormat(v: nat)
    requires v < U64
    ensures ParseUint(FormatUint(v)) == Is(v)
  {
    FormatValue(v);
    ParseUintExact(FormatUint(v));
  }

  // ----- ids on the wire -----

  /** The varint of an id: the error is dropped, so a range error leaves the largest value. */
  function Id(s: Bytes): (v: nat)
    ensures v < U64
  {
    ParseUintExact(s);
    match ParseUint(s)
    case Is(v) => v
    case Syntax => 0
    case Range => U64 - 1
  }

  lemma IdOfFormatted(v: nat)
    requires v < U64
    ensures Id(FormatUint(v)) == v
  {
    ParseFormat(v);
  }

  /** Text that is no number becomes 0 unless it starts with too long a number. */
  lemma IdOfNonNumber(s: Bytes)
    requires s == [] || !AllDigits(s)
    ensures Id(s) == 0 <==> !Overlong(0, s)
  {
    ParseUintExact(s);
  }

  lemma {:induction false} OverlongSnoc(n: nat, s: Bytes, c: Byte)
    requires Overlong(n, s)
    ensures Overlong(n, s + [c])
  {
    var k :| 0 < k <= |s| && AllDigits(s[..k]) && ValueFrom(n, s[..k]) >= U64;
    assert (s + [c])[..k] == s[..k];
  }

  lemma OverlongThenLetter(v: nat, c: Byte)
    requires v >= U64 && !IsDigit(c)
    ensures var s := FormatUint(v) + [c]; !AllDigits(s) && Id(s) == U64 - 1
  {
    var digits := FormatUint(v);
    var s := digits + [c];
    FormatValue(v);
    assert digits[..|digits|] == digits;
    assert Overlong(0, digits);
    OverlongSnoc(0, digits, c);
    assert s[|digits|] == c;
    ParseUintExact(s);
  }

  /** 18446744073709551616x is no number, and yet becomes the largest id. */
  lemma NonNumberNotZero()
    ensures var s := FormatUint(U64) + [120]; !AllDigits(s) && Id(s) == U64 - 1
  {
    OverlongThenLetter(U64, 120);
  }

  // ----- 32-bit integers -----

  const U32: nat := 0x1_0000_0000

  predicate IsInt32(x: int) {
    -0x8000_0000 <= x < 0x8000_0000
  }

  /** uint64(uint32(x)) of an int32. */
  function Uint32(x: int): (v: nat)
    ensures v < U32
  {
    x % U32
  }

  /** int32(v) of a uint64: the low 32 bits, as a signed number. */
  function Int32(v: nat): (x: int)
    ensures IsInt32(x) && (x - v) % U32 == 0
  {
    var low := v % U32;
    if low < 0x8000_0000 then low else low - U32
  }

  lemma Int32Inverts(x: int)
    requires IsInt32(x)
    ensures Int32(Uint32(x)) == x
  {}
}
