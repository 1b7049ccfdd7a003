/** JavaScript strings as sequences of UTF-16 code units, and the byte length of
    their UTF-8 encoding (section 3 of RFC 3629). */
module Utf8 {

  type CodeUnit = x: int | 0 <= x < 0x1_0000
  type Str = seq<CodeUnit>

  /** A Unicode scalar value: a code point that is not a surrogate. */
  type Scalar = x: int | 0 <= x < 0xD800 || 0xE000 <= x < 0x11_0000
  type Byte = x: int | 0 <= x < 0x100

  const REPLACEMENT: Scalar := 0xFFFD

  predicate IsHigh(c: CodeUnit) { 0xD800 <= c <= 0xDBFF }
  predicate IsLow(c: CodeUnit) { 0xDC00 <= c <= 0xDFFF }

  /** True when `s` begins with a surrogate pair. */
  predicate StartsPair(s: Str) {
    |s| >= 2 && IsHigh(s[0]) && IsLow(s[1])
  }

  /** The scalar values of a string; a lone surrogate reads as U+FFFD. */
  function Scalars(s: Str): seq<Scalar> {
    if s == [] then []
    else if StartsPair(s) then
      [0x1_0000 + (s[0] - 0xD800) * 0x400 + (s[1] - 0xDC00)] + Scalars(s[2..])
    else if IsHigh(s[0]) || IsLow(s[0]) then [REPLACEMENT] + Scalars(s[1..])
    else [s[0]] + Scalars(s[1..])
  }

  /** One scalar value in UTF-8: section 3 of RFC 3629. */
  function EncodeScalar(c: Scalar): seq<Byte> {
    if c < 0x80 then [c]
    else if c < 0x800 then [0xC0 + c / 0x40, 0x80 + c % 0x40]
    else if c < 0x1_0000 then [0xE0 + c / 0x1000, 0x80 + c / 0x40 % 0x40, 0x80 + c % 0x40]
    else [0xF0 + c / 0x4_0000, 0x80 + c / 0x1000 % 0x40, 0x80 + c / 0x40 % 0x40, 0x80 + c % 0x40]
  }

  function Encode(cs: seq<Scalar>): seq<Byte> {
    if cs == [] then [] else EncodeScalar(cs[0]) + Encode(cs[1..])
  }

  /** Reads the first scalar value of an encoding back, with its length in bytes. */
  function DecodeFirst(b: seq<int>): (int, nat) {
    if |b| >= 1 && b[0] < 0x80 then (b[0], 1)
    else if |b| >= 2 && 0xC0 <= b[0] < 0xE0 then ((b[0] - 0xC0) * 0x40 + (b[1] - 0x80), 2)
    else if |b| >= 3 && 0xE0 <= b[0] < 0xF0 then
      ((b[0] - 0xE0) * 0x1000 + (b[1] - 0x80) * 0x40 + (b[2] - 0x80), 3)
    else if |b| >= 4 && 0xF0 <= b[0] < 0xF8 then
      ((b[0] - 0xF0) * 0x4_0000 + (b[1] - 0x80) * 0x1000 + (b[2] - 0x80) * 0x40 + (b[3] - 0x80), 4)
    else (-1, 1)
  }

  function Decode(b: seq<int>): seq<int>
    decreases |b|
  {
    if b == [] then []
    else
      var (c, n) := DecodeFirst(b);
      [c] + Decode(b[n..])
  }

  /** The encoding used as the yardstick loses nothing. */
  lemma {:induction false} EncodeRoundTrip(cs: seq<Scalar>)
    ensures Decode(Encode(cs)) == cs
  {
    if cs != [] {
      var e, rest := EncodeScalar(cs[0]), Encode(cs[1..]);
      DecodeFirstEncoded(cs[0], rest);
      assert (e + rest)[|e|..] == rest;
      EncodeRoundTrip(cs[1..]);
    }
  }

  lemma DecodeFirstEncoded(c: Scalar, rest: seq<Byte>)
    ensures DecodeFirst(EncodeScalar(c) + rest) == (c, |EncodeScalar(c)|)
  {
    var b := EncodeScalar(c) + rest;
    if c < 0x80 {
      assert b[0] == c;
    } else if c < 0x800 {
      assert b[0] == 0xC0 + c / 0x40 && b[1] == 0x80 + c % 0x40;
    } else if c < 0x1_0000 {
      assert b[0] == 0xE0 + c / 0x1000 && b[1] == 0x80 + c / 0x40 % 0x40 && b[2] == 0x80 + c % 0x40;
      assert c / 0x1000 == c / 0x40 / 0x40;
    } else {
      assert b[0] == 0xF0 + c / 0x4_0000 && b[1] == 0x80 + c / 0x1000 % 0x40;
      assert b[2] == 0x80 + c / 0x40 % 0x40 && b[3] == 0x80 + c % 0x40;
      assert c / 0x1000 == c / 0x40 / 0x40 && c / 0x4_0000 == c / 0x1000 / 0x40;
    }
  }

  /** A continuation byte: section 3 of RFC 3629. */
  predicate Continues(b: seq<int>, n: nat) {
    n <= |b| && forall i :: 1 <= i < n ==> 0x80 <= b[i] < 0xC0
  }

  /** ... and there is no shorter way to write a scalar value. */
  lemma EncodeIsShortest(c: Scalar, b: seq<Byte>)
    requires b != [] && DecodeFirst(b).0 == c && Continues(b, DecodeFirst(b).1)
    ensures |EncodeScalar(c)| <= DecodeFirst(b).1
  {
  }

  /** Scalar values in UTF-16: section 2.1 of RFC 2781. */
  function Units(cs: seq<Scalar>): Str {
    if cs == [] then [] else UnitsOf(cs[0]) + Units(cs[1..])
  }

  function UnitsOf(c: Scalar): Str {
    if c < 0x1_0000 then [c] else [0xD800 + (c - 0x1_0000) / 0x400, 0xDC00 + (c - 0x1_0000) % 0x400]
  }

  lemma ScalarsStep(c: Scalar, rest: Str)
    ensures Scalars(UnitsOf(c) + rest) == [c] + Scalars(rest)
  {
    var first := UnitsOf(c);
    var s := first + rest;
    assert s[|first|..] == rest && s[0] == first[0] && (|first| == 2 ==> s[1] == first[1]);
  }

  /** A string of whole characters is read back as its scalar values, and what follows them
      is read by itself. */
  lemma {:induction false} ScalarsRoundTrip(cs: seq<Scalar>, rest: Str)
    ensures Scalars(Units(cs) + rest) == cs + Scalars(rest)
    ensures Scalars(Units(cs)) == cs
  {
    hide Scalars, UnitsOf;
    if cs == [] {
      assert [] + rest == rest && [] + Scalars(rest) == Scalars(rest);
      NoScalars();
    } else {
      assert Units(cs) + rest == UnitsOf(cs[0]) + (Units(cs[1..]) + rest);
      ScalarsStep(cs[0], Units(cs[1..]) + rest);
      ScalarsStep(cs[0], Units(cs[1..]));
      ScalarsRoundTrip(cs[1..], rest);
      assert cs + Scalars(rest) == [cs[0]] + (cs[1..] + Scalars(rest));
    }
  }

  lemma NoScalars()
    ensures Scalars([]) == []
  {
  }

  /** A surrogate without its other half, wherever it stands, is read as U+FFFD. */
  lemma LoneSurrogate(cs: seq<Scalar>, c: CodeUnit, rest: Str)
    requires 0xDC00 <= c < 0xE000 || (0xD800 <= c < 0xDC00 && (rest == [] || !(0xDC00 <= rest[0] < 0xE000)))
    ensures Scalars(Units(cs) + ([c] + rest)) == cs + ([0xFFFD] + Scalars(rest))
  {
    ScalarsRoundTrip(cs, [c] + rest);
    assert ([c] + rest)[1..] == rest;
  }

  /** Code units taken by the first character of a nonempty string. */
  function HeadUnits(s: Str): (n: nat)
    requires s != []
    ensures 1 <= n <= |s|
  {
    if StartsPair(s) then 2 else 1
  }

  /** Bytes taken by the first character of a nonempty string. */
  function HeadBytes(s: Str): nat
    requires s != []
  {
    if StartsPair(s) then 4 else if s[0] < 0x80 then 1 else if s[0] < 0x800 then 2 else 3
  }

  function ByteLength(s: Str): nat {
    if s == [] then 0 else HeadBytes(s) + ByteLength(s[HeadUnits(s)..])
  }

  /** `ByteLength` is the length of the string's UTF-8 encoding. */
  lemma {:induction false} ByteLengthIsEncodedLength(s: Str)
    ensures ByteLength(s) == |Encode(Scalars(s))|
  {
    if s != [] {
      var cs := Scalars(s);
      assert Encode(cs) == EncodeScalar(cs[0]) + Encode(cs[1..]);
      assert cs[1..] == Scalars(s[HeadUnits(s)..]);
      ByteLengthIsEncodedLength(s[HeadUnits(s)..]);
    }
  }

  /** The one-pass count agrees with the encoding. */
  method Utf8ByteLength(value: Str) returns (bytes: nat)
    ensures bytes == ByteLength(value) == |Encode(Scalars(value))|
  {
    ByteLengthIsEncodedLength(value);
    bytes := 0;
    var i := 0;
    while i < |value|
      invariant 0 <= i <= |value|
      invariant bytes + ByteLength(value[i..]) == ByteLength(value)
    {
      var code := value[i];
      if code < 0x80 {
        bytes := bytes + 1;
      } else if code < 0x800 {
        bytes := bytes + 2;
      } else if 0xD800 <= code <= 0xDBFF {
        var next := if i + 1 < |value| then value[i + 1] else 0;
        if 0xDC00 <= next <= 0xDFFF {
          bytes := bytes + 4;
          i := i + 1;
        } else {
          bytes := bytes + 3;
        }
      } else {
        bytes := bytes + 3;
      }
      i := i + 1;
      assert value[i..] == value[i - 1..][1..];
      assert i >= 2 ==> value[i..] == value[i - 2..][2..];
    }
    assert value[i..] == [];
  }

  /** Bytes saved at the seam where two strings meet. */
  function SeamSaving(a: Str, b: Str): nat {
    if a != [] && b != [] && IsHigh(a[|a| - 1]) && IsLow(b[0]) then 2 else 0
  }

  /** Joining two strings costs nothing, except that a high surrogate meeting a
      low one turns two replacement characters into one four-byte character. */
  lemma {:induction false} ByteLengthConcat(a: Str, b: Str)
    ensures ByteLength(a + b) == ByteLength(a) + ByteLength(b) - SeamSaving(a, b)
    decreases |a|
  {
    if a == [] {
      assert a + b == b;
    } else {
      var n := HeadUnits(a);
      ByteLengthConcat(a[n..], b);
      if HeadUnits(a + b) == n {
        assert (a + b)[n..] == a[n..] + b;
        HeadsAgree(a, b);
      } else {
        assert (a + b)[2..] == b[1..] && a[1..] == [];
      }
    }
  }

  lemma HeadsAgree(a: Str, b: Str)
    requires a != [] && HeadUnits(a + b) == HeadUnits(a)
    ensures HeadBytes(a + b) == HeadBytes(a)
    ensures SeamSaving(a[HeadUnits(a)..], b) == SeamSaving(a, b)
  {
    assert (a + b)[0] == a[0];
    if |a| > 1 {
      assert (a + b)[1] == a[1];
    } else if b != [] {
      assert (a + b)[1] == b[0];
    }
  }

  lemma {:induction false} ByteLengthBounds(s: Str)
    ensures |s| <= ByteLength(s) <= 3 * |s|
    decreases |s|
  {
    if s != [] {
      ByteLengthBounds(s[HeadUnits(s)..]);
    }
  }
}
