/** What the UTF-8 test of the parser decides: the text is the encoding of some sequence of Unicode scalar
    values. Encodings are those of table 3-6 of the Unicode Standard. */
module Utf8 {
  import opened Wire

  /** Every code point except the surrogates. */
  predicate Scalar(c: int)
  {
    0 <= c < 0xD800 || 0xE000 <= c < 0x110000
  }

  function Encoding(c: int): (s: Bytes)
    requires Scalar(c)
    ensures s != []
  {
    if c < 0x80 then [c]
    else if c < 0x800 then [0xC0 + c / 64, 0x80 + c % 64]
    else if c < 0x10000 then [0xE0 + c / 64 / 64, 0x80 + c / 64 % 64, 0x80 + c % 64]
    else [0xF0 + c / 64 / 64 / 64, 0x80 + c / 64 / 64 % 64, 0x80 + c / 64 % 64, 0x80 + c % 64]
  }

  ghost predicate Scalars(cs: seq<int>)
  {
    forall i | 0 <= i < |cs| :: Scalar(cs[i])
  }

  ghost function Text(cs: seq<int>): Bytes
    requires Scalars(cs)
  {
    if cs == [] then [] else Encoding(cs[0]) + Text(cs[1..])
  }

  lemma EncodingFirst(c: int, rest: Bytes)
    requires Scalar(c)
    ensures ValidUtf8(Encoding(c) + rest) == ValidUtf8(rest)
  {
    var e := Encoding(c);
    var s := e + rest;
    assert s[|e|..] == rest;
    if c < 0x80 {
    } else if c < 0x800 {
      assert s[0] == 0xC0 + c / 64 && s[1] == 0x80 + c % 64;
    } else if c < 0x10000 {
      assert s[0] == 0xE0 + c / 64 / 64 && s[1] == 0x80 + c / 64 % 64 && s[2] == 0x80 + c % 64;
    } else {
      assert s[0] == 0xF0 + c / 64 / 64 / 64 && s[1] == 0x80 + c / 64 / 64 % 64;
      assert s[2] == 0x80 + c / 64 % 64 && s[3] == 0x80 + c % 64;
    }
  }

  lemma {:induction false} TextValid(cs: seq<int>)
    requires Scalars(cs)
    ensures ValidUtf8(Text(cs))
  {
    hide Encoding;
    if cs != [] {
      TextValid(cs[1..]);
      EncodingFirst(cs[0], Text(cs[1..]));
    }
  }

  /** The first character of a valid text. */
  lemma FirstScalar(s: Bytes) returns (c: int)
    requires s != [] && ValidUtf8(s)
    ensures Scalar(c) && |Encoding(c)| <= |s| && s[..|Encoding(c)|] == Encoding(c) && ValidUtf8(s[|Encoding(c)|..])
  {
    var first: int := s[0];
    if first < 0x80 {
      c := first;
    } else if first < 0xE0 {
      var second: int := s[1];
      c := (first - 0xC0) * 64 + (second - 0x80);
    } else if first < 0xF0 {
      var second: int, third: int := s[1], s[2];
      var high := (first - 0xE0) * 64 + (second - 0x80);
      c := high * 64 + (third - 0x80);
      assert c / 64 == high;
    } else {
      var second: int, third: int, fourth: int := s[1], s[2], s[3];
      var high := (first - 0xF0) * 64 + (second - 0x80);
      var middle := high * 64 + (third - 0x80);
      c := middle * 64 + (fourth - 0x80);
      assert c / 64 == middle && middle / 64 == high;
    }
  }

  lemma {:induction false} Decode(s: Bytes) returns (cs: seq<int>)
    requires ValidUtf8(s)
    ensures Scalars(cs) && Text(cs) == s
    decreases |s|
  {
    hide ValidUtf8, Encoding;
    if s == [] {
      cs := [];
    } else {
      var c := FirstScalar(s);
      var rest := Decode(s[|Encoding(c)|..]);
      cs := [c] + rest;
      assert cs[1..] == rest;
      assert s == s[..|Encoding(c)|] + s[|Encoding(c)|..];
    }
  }

  /** The test accepts exactly the encodings of sequences of scalar values. */
  lemma ValidMeans(s: Bytes)
    ensures ValidUtf8(s) <==> exists cs :: Scalars(cs) && Text(cs) == s
  {
    hide ValidUtf8, Text;
    if ValidUtf8(s) {
      var cs := Decode(s);
    }
    if cs :| Scalars(cs) && Text(cs) == s {
      TextValid(cs);
    }
  }
}
