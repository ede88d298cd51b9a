/** The byte test for paths and size lines against the encoding of scalar values. */
module Utf8 {
  import opened Words

  /** Unicode scalar values: code points that are no surrogates. */
  type Scalar = c: int | 0 <= c <= 0x10FFFF && !(0xD800 <= c <= 0xDFFF)

  function Encode(c: Scalar): seq<u8> {
    if c < 0x80 then [c]
    else if c < 0x800 then [0xC0 + c / 0x40, 0x80 + c % 0x40]
    else if c < 0x1_0000 then [0xE0 + c / 0x1000, 0x80 + c / 0x40 % 0x40, 0x80 + c % 0x40]
    else [0xF0 + c / 0x4_0000, 0x80 + c / 0x1000 % 0x40, 0x80 + c / 0x40 % 0x40, 0x80 + c % 0x40]
  }

  function EncodeAll(cs: seq<Scalar>): seq<u8> {
    if cs == [] then [] else Encode(cs[0]) + EncodeAll(cs[1..])
  }

  lemma {:induction false} EncodedIsUtf8(cs: seq<Scalar>)
    ensures IsUtf8(EncodeAll(cs))
    decreases |cs|
  {
    if cs != [] {
      EncodedIsUtf8(cs[1..]);
      OneMore(cs[0], EncodeAll(cs[1..]));
    }
  }

  lemma OneMore(c: Scalar, rest: seq<u8>)
    requires IsUtf8(rest)
    ensures IsUtf8(Encode(c) + rest)
  {
    var b := Encode(c);
    assert (b + rest)[|b|..] == rest;
  }

  /** The scalar value at the front of well-formed bytes. */
  function First(s: seq<u8>): (c: Scalar)
    requires s != [] && IsUtf8(s)
    ensures Encode(c) <= s && IsUtf8(s[|Encode(c)|..])
  {
    if s[0] < 0x80 then s[0]
    else if s[0] <= 0xDF then Two(s[0], s[1])
    else if s[0] <= 0xEF then Three(s[0], s[1], s[2])
    else Four(s[0], s[1], s[2], s[3])
  }

  /** Six bits at a time. */
  lemma Digit(x: nat, q: nat, r: nat)
    requires x == q * 0x40 + r && r < 0x40
    ensures x / 0x40 == q && x % 0x40 == r
  {
  }

  lemma Nested(x: nat)
    ensures x / 0x1000 == x / 0x40 / 0x40 && x / 0x4_0000 == x / 0x1000 / 0x40
  {
  }

  function Two(a: u8, b: u8): (c: Scalar)
    requires 0xC2 <= a <= 0xDF && Trail(b)
    ensures Encode(c) == [a, b]
  {
    (a - 0xC0) * 0x40 + (b - 0x80)
  }

  function Three(a: u8, b: u8, d: u8): (c: Scalar)
    requires 0xE0 <= a <= 0xEF && Trail(b) && Trail(d) && (a == 0xE0 ==> b >= 0xA0) && (a == 0xED ==> b <= 0x9F)
    ensures Encode(c) == [a, b, d]
  {
    var high := (a - 0xE0) * 0x40 + (b - 0x80);
    var c := high * 0x40 + (d - 0x80);
    Digit(high, a - 0xE0, b - 0x80);
    Digit(c, high, d - 0x80);
    Nested(c);
    c
  }

  function Four(a: u8, b: u8, d: u8, e: u8): (c: Scalar)
    requires 0xF0 <= a <= 0xF4 && Trail(b) && Trail(d) && Trail(e) && (a == 0xF0 ==> b >= 0x90) && (a == 0xF4 ==> b <= 0x8F)
    ensures Encode(c) == [a, b, d, e]
  {
    var top := (a - 0xF0) * 0x40 + (b - 0x80);
    var high := top * 0x40 + (d - 0x80);
    var c := high * 0x40 + (e - 0x80);
    Digit(top, a - 0xF0, b - 0x80);
    Digit(high, top, d - 0x80);
    Digit(c, high, e - 0x80);
    Nested(c);
    c
  }

  lemma SomeBytes(c: Scalar)
    ensures Encode(c) != []
  {
  }

  lemma {:induction false} Utf8Decodes(s: seq<u8>)
    requires IsUtf8(s)
    ensures exists cs :: EncodeAll(cs) == s
    decreases |s|
  {
    hide Encode, IsUtf8;
    if s == [] {
      assert EncodeAll([]) == s;
    } else {
      var c := First(s);
      var rest := s[|Encode(c)|..];
      SomeBytes(c);
      Utf8Decodes(rest);
      var cs :| EncodeAll(cs) == rest;
      assert ([c] + cs)[1..] == cs;
      assert EncodeAll([c] + cs) == s;
    }
  }

  /** The byte test accepts exactly the encodings of sequences of scalar values. */
  lemma Utf8Exactly(s: seq<u8>)
    ensures IsUtf8(s) <==> exists cs :: EncodeAll(cs) == s
  {
    if IsUtf8(s) {
      Utf8Decodes(s);
    } else {
      forall cs ensures EncodeAll(cs) != s { EncodedIsUtf8(cs); }
    }
  }
}
