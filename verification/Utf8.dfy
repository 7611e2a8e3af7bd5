/**
  The hand-written UTF-8 decoder `S1DecodeTokenizer._decode_bytes`, against the encoding of
  section 3 of RFC 3629, whose results are the byte sequences of its section 4. A `char` is a
  Unicode scalar value: surrogates and values above U+10FFFF are not characters, so no decoding can
  produce one.
*/
module Utf8 {

  type Byte = b: int | 0 <= b < 256

  const REPLACEMENT: char := '\U{FFFD}'

  /** The shortest form, the only one section 3 of RFC 3629 allows. */
  function Encode(c: char): (r: seq<Byte>)
    ensures 1 <= |r| <= 4
  {
    var s := c as int;
    if s < 0x80 then [s]
    else if s < 0x800 then [0xC0 + s / 64, 0x80 + s % 64]
    else if s < 0x1_0000 then [0xE0 + s / 4096, 0x80 + s / 64 % 64, 0x80 + s % 64]
    else [0xF0 + s / 26_2144, 0x80 + s / 4096 % 64, 0x80 + s / 64 % 64, 0x80 + s % 64]
  }

  function EncodeAll(text: string): seq<Byte> {
    if text == [] then [] else Encode(text[0]) + EncodeAll(text[1..])
  }

  ghost predicate SomeEncodingStarts(v: seq<Byte>) {
    exists c: char :: Encode(c) <= v
  }

  // ----- what the branches of the decoder compute -----

  predicate Tail(b: int) {
    0x80 <= b <= 0xBF
  }

  /** The scalars of two, three and four bytes: masks and shifts of disjoint bit fields, as arithmetic. */
  function Scalar2(first: int, second: int): int {
    first % 32 * 64 + second % 64
  }

  function Scalar3(first: int, second: int, third: int): int {
    first % 16 * 4096 + second % 64 * 64 + third % 64
  }

  function Scalar4(first: int, second: int, third: int, fourth: int): int {
    first % 8 * 26_2144 + second % 64 * 4096 + third % 64 * 64 + fourth % 64
  }

  predicate Second3(first: int, second: int) {
    Tail(second) && (first != 0xE0 || second >= 0xA0) && (first != 0xED || second <= 0x9F)
  }

  predicate Second4(first: int, second: int) {
    Tail(second) && (first != 0xF0 || second >= 0x90) && (first != 0xF4 || second <= 0x8F)
  }

  /** Width and scalar of the well-formed sequence at the front of `v`; width 0 when there is none. */
  function Head(v: seq<Byte>): (nat, int)
    requires v != []
  {
    var first := v[0];
    if first <= 0x7F then (1, first)
    else if 0xC2 <= first <= 0xDF && 1 < |v| then
      if Tail(v[1]) then (2, Scalar2(first, v[1])) else (0, 0)
    else if 0xE0 <= first <= 0xEF && 2 < |v| then
      if Second3(first, v[1]) && Tail(v[2]) then (3, Scalar3(first, v[1], v[2])) else (0, 0)
    else if 0xF0 <= first <= 0xF4 && 3 < |v| then
      if Second4(first, v[1]) && Tail(v[2]) && Tail(v[3]) then (4, Scalar4(first, v[1], v[2], v[3])) else (0, 0)
    else (0, 0)
  }

  predicate IsScalar(s: int) {
    0 <= s < 0xD800 || 0xE000 <= s <= 0x10_FFFF
  }

  lemma Split2(a: int, b: int)
    requires 0xC2 <= a <= 0xDF && Tail(b)
    ensures var s := Scalar2(a, b); 0x80 <= s < 0x800 && a == 0xC0 + s / 64 && b == 0x80 + s % 64
  {
  }

  lemma Split3(a: int, b: int, c: int)
    requires 0xE0 <= a <= 0xEF && Second3(a, b) && Tail(c)
    ensures
      var s := Scalar3(a, b, c);
      && IsScalar(s) && 0x800 <= s < 0x1_0000
      && a == 0xE0 + s / 4096 && b == 0x80 + s / 64 % 64 && c == 0x80 + s % 64
  {
    hide Scalar3;
    Masks3(a, b, c);
    Quotients(0, a - 0xE0, b - 0x80, c - 0x80);
  }

  lemma Masks3(a: int, b: int, c: int)
    requires 0xE0 <= a <= 0xEF && Tail(b) && Tail(c)
    ensures Scalar3(a, b, c) == (a - 0xE0) * 4096 + (b - 0x80) * 64 + (c - 0x80)
  {
    assert a % 16 == a - 0xE0 && b % 64 == b - 0x80 && c % 64 == c - 0x80;
  }

  lemma Split4(a: int, b: int, c: int, d: int)
    requires 0xF0 <= a <= 0xF4 && Second4(a, b) && Tail(c) && Tail(d)
    ensures
      var s := Scalar4(a, b, c, d);
      && IsScalar(s) && 0x1_0000 <= s
      && a == 0xF0 + s / 26_2144 && b == 0x80 + s / 4096 % 64 && c == 0x80 + s / 64 % 64 && d == 0x80 + s % 64
  {
    hide Scalar4;
    Masks4(a, b, c, d);
    Quotients(a - 0xF0, b - 0x80, c - 0x80, d - 0x80);
  }

  lemma Masks4(a: int, b: int, c: int, d: int)
    requires 0xF0 <= a <= 0xF4 && Tail(b) && Tail(c) && Tail(d)
    ensures Scalar4(a, b, c, d) == (a - 0xF0) * 26_2144 + (b - 0x80) * 4096 + (c - 0x80) * 64 + (d - 0x80)
  {
    assert a % 8 == a - 0xF0 && b % 64 == b - 0x80 && c % 64 == c - 0x80 && d % 64 == d - 0x80;
  }

  /** The base-64 digits of a four-digit number. */
  lemma Quotients(w: int, x: int, y: int, z: int)
    requires 0 <= w && 0 <= x < 64 && 0 <= y < 64 && 0 <= z < 64
    ensures
      var s := w * 26_2144 + x * 4096 + y * 64 + z;
      s / 26_2144 == w && s / 4096 % 64 == x && s / 64 % 64 == y && s % 64 == z
  {
    var s := w * 26_2144 + x * 4096 + y * 64 + z;
    assert s / 64 == w * 4096 + x * 64 + y;
    assert s / 4096 == w * 64 + x;
  }

  lemma Join2(s: int)
    requires 0x80 <= s < 0x800
    ensures var a, b := 0xC0 + s / 64, 0x80 + s % 64; 0xC2 <= a <= 0xDF && Tail(b) && Scalar2(a, b) == s
  {
  }

  lemma Join3(s: int)
    requires IsScalar(s) && 0x800 <= s < 0x1_0000
    ensures
      var a, b, c := 0xE0 + s / 4096, 0x80 + s / 64 % 64, 0x80 + s % 64;
      0xE0 <= a <= 0xEF && Second3(a, b) && Tail(c) && Scalar3(a, b, c) == s
  {
    hide Scalar3;
    var x, y, z := s / 4096, s / 64 % 64, s % 64;
    assert s == x * 4096 + y * 64 + z;
    Masks3(0xE0 + x, 0x80 + y, 0x80 + z);
  }

  lemma Join4(s: int)
    requires IsScalar(s) && 0x1_0000 <= s
    ensures
      var a, b, c, d := 0xF0 + s / 26_2144, 0x80 + s / 4096 % 64, 0x80 + s / 64 % 64, 0x80 + s % 64;
      0xF0 <= a <= 0xF4 && Second4(a, b) && Tail(c) && Tail(d) && Scalar4(a, b, c, d) == s
  {
    var w, x, y, z := s / 26_2144, s / 4096 % 64, s / 64 % 64, s % 64;
    Digits(s);
    assert s == w * 26_2144 + x * 4096 + y * 64 + z;
    assert 0 <= w <= 4;
  }

  lemma Digits(s: int)
    requires 0 <= s
    ensures s == s / 26_2144 * 26_2144 + s / 4096 % 64 * 4096 + s / 64 % 64 * 64 + s % 64
  {
    assert s / 4096 == s / 64 / 64;
    assert s / 26_2144 == s / 4096 / 64;
  }

  /** Only encodings of scalar values are accepted: nothing overlong, no surrogate, nothing above U+10FFFF. */
  lemma AcceptedIsAnEncoding(v: seq<Byte>)
    requires v != [] && Head(v).0 > 0
    ensures IsScalar(Head(v).1)
    ensures Encode(Head(v).1 as char) <= v && |Encode(Head(v).1 as char)| == Head(v).0
  {
    hide Scalar2, Scalar3, Scalar4, Second3, Second4, Tail;
    if Head(v).0 == 2 {
      Split2(v[0], v[1]);
    } else if Head(v).0 == 3 {
      Split3(v[0], v[1], v[2]);
    } else if Head(v).0 == 4 {
      Split4(v[0], v[1], v[2], v[3]);
    }
  }

  /** Every encoding of a scalar value is accepted, whatever follows it. */
  lemma EncodingIsAccepted(v: seq<Byte>, c: char)
    requires Encode(c) <= v
    ensures Head(v) == (|Encode(c)|, c as int)
  {
    hide Scalar2, Scalar3, Scalar4, Second3, Second4, Tail;
    var s := c as int;
    assert forall i :: 0 <= i < |Encode(c)| ==> v[i] == Encode(c)[i];
    if 0x80 <= s < 0x800 {
      Join2(s);
    } else if 0x800 <= s < 0x1_0000 {
      Join3(s);
    } else if 0x1_0000 <= s {
      Join4(s);
    }
  }

  /** The decoder accepts at a position exactly when the encoding of some scalar value starts there. */
  lemma AcceptsExactlyEncodings(v: seq<Byte>)
    requires v != []
    ensures Head(v).0 > 0 <==> SomeEncodingStarts(v)
  {
    if Head(v).0 > 0 {
      AcceptedIsAnEncoding(v);
    }
    if SomeEncodingStarts(v) {
      var c: char :| Encode(c) <= v;
      EncodingIsAccepted(v, c);
    }
  }

  // ----- the specification: a byte string as a list of units -----

  /** A decoded character, or one byte at which no encoding starts. */
  datatype Unit = Scalar(value: char) | Rejected(byte: Byte)

  function UnitBytes(u: Unit): seq<Byte> {
    match u
    case Scalar(c) => Encode(c)
    case Rejected(b) => [b]
  }

  function UnitText(u: Unit): char {
    match u
    case Scalar(c) => c
    case Rejected(_) => REPLACEMENT
  }

  /** The encoding that starts at the front of `v`, or its first byte when none does. */
  ghost function FirstUnit(v: seq<Byte>): (u: Unit)
    requires v != []
    ensures UnitBytes(u) <= v
    ensures u.Rejected? <==> !SomeEncodingStarts(v)
  {
    if c: char :| Encode(c) <= v then Scalar(c) else Rejected(v[0])
  }

  ghost function Units(v: seq<Byte>): seq<Unit>
    decreases |v|
  {
    if v == [] then [] else [FirstUnit(v)] + Units(v[|UnitBytes(FirstUnit(v))|..])
  }

  function Bytes(units: seq<Unit>): seq<Byte> {
    if units == [] then [] else UnitBytes(units[0]) + Bytes(units[1..])
  }

  function Text(units: seq<Unit>): string {
    if units == [] then [] else [UnitText(units[0])] + Text(units[1..])
  }

  /** Decoded text: one character per unit. */
  ghost function Decode(v: seq<Byte>): string {
    Text(Units(v))
  }

  lemma FirstBytes(u: Unit, rest: seq<Unit>)
    ensures Bytes([u] + rest) == UnitBytes(u) + Bytes(rest)
  {
    hide UnitBytes;
    assert ([u] + rest)[1..] == rest;
  }

  /** No byte is lost or read twice: the units spell the input out. */
  lemma {:induction false} UnitsPartitionTheInput(v: seq<Byte>)
    ensures Bytes(Units(v)) == v
    decreases |v|
  {
    hide FirstUnit, SomeEncodingStarts, UnitBytes, Bytes;
    if v == [] {
      NoBytes();
    } else {
      var first := UnitBytes(FirstUnit(v));
      FirstIsThere(v);
      UnitsPartitionTheInput(v[|first|..]);
      FirstBytes(FirstUnit(v), Units(v[|first|..]));
      assert v == first + v[|first|..];
    }
  }

  lemma NoBytes()
    ensures Bytes([]) == []
  {
  }

  lemma FirstIsThere(v: seq<Byte>)
    requires v != []
    ensures 0 < |UnitBytes(FirstUnit(v))| && UnitBytes(FirstUnit(v)) <= v
  {
    hide Encode, SomeEncodingStarts;
  }

  /** At most one encoding starts at a position. */
  lemma EncodingsArePrefixFree(v: seq<Byte>, a: char, b: char)
    requires Encode(a) <= v && Encode(b) <= v
    ensures a == b
  {
    EncodingIsAccepted(v, a);
    EncodingIsAccepted(v, b);
  }

  /** The decoder reads the encoding of a character, and only it, from the front. */
  lemma DecodeOne(c: char, rest: seq<Byte>)
    ensures Decode(Encode(c) + rest) == [c] + Decode(rest)
  {
    var v := Encode(c) + rest;
    assert Encode(c) <= v;
    var u := FirstUnit(v);
    assert u.Scalar?;
    EncodingsArePrefixFree(v, c, u.value);
    assert v[|Encode(c)|..] == rest;
  }

  /** Decoding inverts encoding, and what follows is decoded as if it stood alone. */
  lemma {:induction false} DecodingInvertsEncoding(text: string, rest: seq<Byte>)
    ensures Decode(EncodeAll(text) + rest) == text + Decode(rest)
  {
    hide Decode;
    if text == [] {
      assert EncodeAll(text) + rest == rest;
    } else {
      hide Encode;
      assert EncodeAll(text) + rest == Encode(text[0]) + (EncodeAll(text[1..]) + rest);
      DecodeOne(text[0], EncodeAll(text[1..]) + rest);
      DecodingInvertsEncoding(text[1..], rest);
    }
  }

  /** Re-encoding the output gives the input back exactly when the input encodes some text. */
  lemma ReencodingRoundTrip(v: seq<Byte>)
    ensures EncodeAll(Decode(v)) == v <==> exists text: string :: EncodeAll(text) == v
  {
    if text: string :| EncodeAll(text) == v {
      DecodingInvertsEncoding(text, []);
      assert EncodeAll(text) + [] == v && Decode([]) == [];
      assert text + [] == text;
    }
  }

  /** Without a rejected byte, re-encoding the output gives the input. */
  lemma {:induction false} NothingRejectedRoundTrip(v: seq<Byte>)
    requires forall u :: u in Units(v) ==> u.Scalar?
    ensures EncodeAll(Decode(v)) == v
    decreases |v|
  {
    if v != [] {
      var u := FirstUnit(v);
      var rest := v[|UnitBytes(u)|..];
      assert Units(v) == [u] + Units(rest);
      NothingRejectedRoundTrip(rest);
      assert Decode(v) == [u.value] + Decode(rest);
      assert v == UnitBytes(u) + rest;
    }
  }

  lemma DecodeStep(v: seq<Byte>)
    requires v != []
    ensures Head(v).0 > 0 ==>
            IsScalar(Head(v).1) && Head(v).0 <= |v| && Decode(v) == [Head(v).1 as char] + Decode(v[Head(v).0..])
    ensures Head(v).0 == 0 ==> Decode(v) == ['\U{FFFD}'] + Decode(v[1..])
  {
    AcceptsExactlyEncodings(v);
    if Head(v).0 > 0 {
      AcceptedIsAnEncoding(v);
      EncodingsArePrefixFree(v, Head(v).1 as char, FirstUnit(v).value);
    }
  }

  /** The branches of the program at one position. */
  method ReadScalar(values: seq<Byte>, index: nat) returns (width: nat, scalar: int)
    requires index < |values|
    ensures (width, scalar) == Head(values[index..])
  {
    hide Scalar2, Scalar3, Scalar4;
    var first := values[index];
    width, scalar := 0, 0;
    if first <= 0x7F {
      width, scalar := 1, first;
    } else if 0xC2 <= first <= 0xDF && index + 1 < |values| {
      var second := values[index + 1];
      if 0x80 <= second <= 0xBF {
        width, scalar := 2, Scalar2(first, second);
      }
    } else if 0xE0 <= first <= 0xEF && index + 2 < |values| {
      var second, third := values[index + 1], values[index + 2];
      var validSecond :=
        && 0x80 <= second <= 0xBF
        && (first != 0xE0 || second >= 0xA0)
        && (first != 0xED || second <= 0x9F);
      if validSecond && 0x80 <= third <= 0xBF {
        width, scalar := 3, Scalar3(first, second, third);
      }
    } else if 0xF0 <= first <= 0xF4 && index + 3 < |values| {
      var second, third, fourth := values[index + 1], values[index + 2], values[index + 3];
      var validSecond :=
        && 0x80 <= second <= 0xBF
        && (first != 0xF0 || second >= 0x90)
        && (first != 0xF4 || second <= 0x8F);
      if validSecond && 0x80 <= third <= 0xBF && 0x80 <= fourth <= 0xBF {
        width, scalar := 4, Scalar4(first, second, third, fourth);
      }
    }
  }

  /** The loop of the program: one character per encoding, one U+FFFD per rejected byte. */
  method DecodeBytes(values: seq<Byte>) returns (output: string)
    ensures output == Decode(values)
  {
    hide Head, Decode;
    output := [];
    var index := 0;
    DecodeNothing();
    while index < |values|
      invariant 0 <= index <= |values|
      invariant output + Decode(values[index..]) == Decode(values)
    {
      var width, scalar := ReadScalar(values, index);
      DecodeStep(values[index..]);
      if width > 0 {
        assert values[index..][width..] == values[index + width..];
        output := output + [scalar as char];
        index := index + width;
      } else {
        assert values[index..][1..] == values[index + 1..];
        output := output + [REPLACEMENT];
        index := index + 1;
      }
    }
    assert values[|values|..] == [];
  }

  lemma DecodeNothing()
    ensures Decode([]) == []
  {
  }
}
