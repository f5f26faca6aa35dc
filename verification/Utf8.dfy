/** File names are exactly the encodings of sequences of Unicode scalar values (sections 3 and 4 of RFC 3629). */
module Utf8 {
  import opened Common
  import opened Manifest

  /** Every code point but the surrogates. */
  type Scalar = c: nat | c < 0xD800 || 0xE000 <= c < 0x11_0000

  function EncodeScalar(c: Scalar): (b: Bytes)
    ensures 1 <= |b| <= 4
  {
    if c < 0x80 then [c]
    else if c < 0x800 then [0xC0 + c / 64, 0x80 + c % 64]
    else if c < 0x1_0000 then [0xE0 + c / 4096, 0x80 + c / 64 % 64, 0x80 + c % 64]
    else [0xF0 + c / 26_2144, 0x80 + c / 4096 % 64, 0x80 + c / 64 % 64, 0x80 + c % 64]
  }

  function EncodeText(cs: seq<Scalar>): Bytes {
    if cs == [] then [] else EncodeScalar(cs[0]) + EncodeText(cs[1..])
  }

  /** The accepted first characters are the encoded scalars: one way. */
  lemma ScalarAccepted(c: Scalar, rest: Bytes)
    ensures CharLen(EncodeScalar(c) + rest) == |EncodeScalar(c)|
  {
    if c < 0x1_0000 {
      ShortScalar(c, rest);
    } else {
      LongScalar(c, rest);
    }
    hide CharLen;
    hide EncodeScalar;
  }

  lemma ShortScalar(c: Scalar, rest: Bytes)
    requires c < 0x1_0000
    ensures CharLen(EncodeScalar(c) + rest) == |EncodeScalar(c)|
  {
    assert c / 64 == 64 * (c / 4096) + c / 64 % 64;
  }

  lemma LongScalar(c: Scalar, rest: Bytes)
    requires c >= 0x1_0000
    ensures CharLen(EncodeScalar(c) + rest) == |EncodeScalar(c)|
  {
    var hi := c / 4096;
    assert c / 26_2144 == hi / 64 && hi == 64 * (hi / 64) + hi % 64;
  }

  /** And the other way. */
  lemma AcceptedScalar(b: Bytes) returns (c: Scalar)
    requires CharLen(b) > 0
    ensures EncodeScalar(c) == b[..CharLen(b)]
  {
    var n := CharLen(b);
    if n == 1 {
      c := b[0];
    } else if n == 2 {
      var x: int, y: int := b[0] - 0xC0, b[1] - 0x80;
      c := 64 * x + y;
    } else if n == 3 {
      c := ThreeBytes(b[0], b[1], b[2]);
    } else {
      c := FourBytes(b[0], b[1], b[2], b[3]);
    }
  }

  lemma ThreeBytes(b0: Byte, b1: Byte, b2: Byte) returns (c: Scalar)
    requires CharLen([b0, b1, b2]) == 3
    ensures EncodeScalar(c) == [b0, b1, b2]
  {
    var x, y, z := b0 - 0xE0, b1 - 0x80, b2 - 0x80;
    c := 4096 * x + 64 * y + z;
    assert c / 64 == 64 * x + y && c / 4096 == x;
  }

  lemma FourBytes(b0: Byte, b1: Byte, b2: Byte, b3: Byte) returns (c: Scalar)
    requires CharLen([b0, b1, b2, b3]) == 4
    ensures EncodeScalar(c) == [b0, b1, b2, b3]
  {
    var w, x, y, z := b0 - 0xF0, b1 - 0x80, b2 - 0x80, b3 - 0x80;
    c := 26_2144 * w + 4096 * x + 64 * y + z;
    assert c / 64 == 4096 * w + 64 * x + y && c / 4096 == 64 * w + x && c / 26_2144 == w;
  }

  lemma {:induction false} TextAccepted(cs: seq<Scalar>)
    ensures ValidUtf8(EncodeText(cs))
  {
    if cs != [] {
      var first, rest := EncodeScalar(cs[0]), EncodeText(cs[1..]);
      hide EncodeScalar;
      hide CharLen;
      ScalarAccepted(cs[0], rest);
      TextAccepted(cs[1..]);
      assert (first + rest)[|first|..] == rest;
    }
  }

  lemma {:induction false} AcceptedText(b: Bytes) returns (cs: seq<Scalar>)
    requires ValidUtf8(b)
    ensures EncodeText(cs) == b
  {
    cs := [];
    if b != [] {
      hide EncodeScalar;
      hide CharLen;
      var c := AcceptedScalar(b);
      var rest := AcceptedText(b[CharLen(b)..]);
      cs := [c] + rest;
      assert cs[1..] == rest;
      assert b == b[..CharLen(b)] + b[CharLen(b)..];
    }
  }

  /** A byte string is accepted as a name if and only if it is the encoding of a text. */
  lemma ValidIff(b: Bytes)
    ensures ValidUtf8(b) <==> exists cs :: EncodeText(cs) == b
  {
    if ValidUtf8(b) {
      var cs := AcceptedText(b);
    }
    forall cs | EncodeText(cs) == b
      ensures ValidUtf8(b)
    {
      TextAccepted(cs);
    }
  }
}
