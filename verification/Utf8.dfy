/**
  What valid UTF-8 is: exactly the encodings of sequences of Unicode scalar
  values, by the table of section 3 of RFC 3629.
 */
module Utf8 {
  import opened Common
  import opened Cbor

  predicate Scalar(c: int) {
    0 <= c < 0xD800 || 0xE000 <= c < 0x11_0000
  }

  predicate Scalars(cs: seq<int>) {
    forall i :: 0 <= i < |cs| ==> Scalar(cs[i])
  }

  function Encoded(c: int): (r: Bytes)
    requires Scalar(c)
    ensures r != []
  {
    if c < 0x80 then [c]
    else if c < 0x800 then [0xC0 + c / 64, 0x80 + c % 64]
    else if c < 0x1_0000 then [0xE0 + c / 4096, 0x80 + c / 64 % 64, 0x80 + c % 64]
    else [0xF0 + c / 26_2144, 0x80 + c / 4096 % 64, 0x80 + c / 64 % 64, 0x80 + c % 64]
  }

  function EncodedText(cs: seq<int>): Bytes
    requires Scalars(cs)
  {
    if cs == [] then [] else Encoded(cs[0]) + EncodedText(cs[1..])
  }

  /** An encoded scalar in front does not matter. */
  lemma ScalarValid(c: int, t: Bytes)
    requires Scalar(c)
    ensures ValidUtf8(Encoded(c) + t) <==> ValidUtf8(t)
  {
    var s := Encoded(c) + t;
    hide Encoded;
    if c < 0x80 {
      OneByte(c);
      assert s[1..] == t;
    } else if c < 0x800 {
      TwoBytes(c);
      assert s[2..] == t;
    } else if c < 0x1_0000 {
      ThreeBytes(c);
      assert s[3..] == t;
    } else {
      FourBytes(c);
      assert s[4..] == t;
    }
  }

  lemma OneByte(c: int)
    requires 0 <= c < 0x80
    ensures Scalar(c) && Encoded(c) == [c]
  {
  }

  lemma TwoBytes(c: int)
    requires 0x80 <= c < 0x800
    ensures var r := Encoded(c); |r| == 2 && 0xC2 <= r[0] <= 0xDF && Continuation(r[1])
  {
  }

  lemma ThreeBytes(c: int)
    requires 0x800 <= c < 0x1_0000 && Scalar(c)
    ensures var r := Encoded(c);
            && |r| == 3 && 0xE0 <= r[0] <= 0xEF && Continuation(r[1]) && Continuation(r[2])
            && (r[0] == 0xE0 ==> 0xA0 <= r[1]) && (r[0] == 0xED ==> r[1] <= 0x9F)
  {
  }

  lemma FourBytes(c: int)
    requires 0x1_0000 <= c < 0x11_0000
    ensures var r := Encoded(c);
            && |r| == 4 && 0xF0 <= r[0] <= 0xF4 && Continuation(r[1]) && Continuation(r[2]) && Continuation(r[3])
            && (r[0] == 0xF0 ==> 0x90 <= r[1]) && (r[0] == 0xF4 ==> r[1] <= 0x8F)
  {
  }

  lemma TwoRead(b0: byte, b1: byte) returns (c: int)
    requires 0xC2 <= b0 <= 0xDF && Continuation(b1)
    ensures Scalar(c) && Encoded(c) == [b0, b1]
  {
    var x: int, y: int := b0, b1;
    c := (x - 0xC0) * 64 + (y - 0x80);
  }

  lemma ThreeRead(b0: byte, b1: byte, b2: byte) returns (c: int)
    requires 0xE0 <= b0 <= 0xEF && Continuation(b1) && Continuation(b2) && (b0 == 0xE0 ==> 0xA0 <= b1) && (b0 == 0xED ==> b1 <= 0x9F)
    ensures Scalar(c) && Encoded(c) == [b0, b1, b2]
  {
    var x: int, y: int, z: int := b0, b1, b2;
    c := (x - 0xE0) * 4096 + (y - 0x80) * 64 + (z - 0x80);
    Digits3(x - 0xE0, y - 0x80, z - 0x80);
  }

  lemma FourRead(b0: byte, b1: byte, b2: byte, b3: byte) returns (c: int)
    requires 0xF0 <= b0 <= 0xF4 && Continuation(b1) && Continuation(b2) && Continuation(b3)
    requires (b0 == 0xF0 ==> 0x90 <= b1) && (b0 == 0xF4 ==> b1 <= 0x8F)
    ensures Scalar(c) && Encoded(c) == [b0, b1, b2, b3]
  {
    var x: int, y: int, z: int, w: int := b0, b1, b2, b3;
    c := (x - 0xF0) * 26_2144 + (y - 0x80) * 4096 + (z - 0x80) * 64 + (w - 0x80);
    Digits4(x - 0xF0, y - 0x80, z - 0x80, w - 0x80);
  }

  /** A valid string starts with an encoded scalar. */
  lemma StartsEncoded(s: Bytes) returns (c: int, t: Bytes)
    requires ValidUtf8(s) && s != []
    ensures Scalar(c) && s == Encoded(c) + t && ValidUtf8(t)
  {
    hide Encoded, Scalar;
    if s[0] <= 0x7F {
      c, t := s[0], s[1..];
      OneByte(c);
    } else if s[0] <= 0xDF {
      c := TwoRead(s[0], s[1]);
      t := s[2..];
    } else if s[0] <= 0xEF {
      c := ThreeRead(s[0], s[1], s[2]);
      t := s[3..];
    } else {
      c := FourRead(s[0], s[1], s[2], s[3]);
      t := s[4..];
    }
  }

  lemma Digits3(a: int, b: int, d: int)
    requires 0 <= a < 16 && 0 <= b < 64 && 0 <= d < 64
    ensures var c := a * 4096 + b * 64 + d; c / 4096 == a && c / 64 % 64 == b && c % 64 == d
  {
    assert (a * 4096 + b * 64 + d) / 64 == a * 64 + b;
  }

  lemma Digits4(a: int, b: int, d: int, e: int)
    requires 0 <= a < 8 && 0 <= b < 64 && 0 <= d < 64 && 0 <= e < 64
    ensures var c := a * 26_2144 + b * 4096 + d * 64 + e; c / 26_2144 == a && c / 4096 % 64 == b && c / 64 % 64 == d && c % 64 == e
  {
    assert (a * 26_2144 + b * 4096 + d * 64 + e) / 64 == a * 4096 + b * 64 + d;
    assert (a * 26_2144 + b * 4096 + d * 64 + e) / 4096 == a * 64 + b;
  }

  lemma {:induction false} EncodingsValid(cs: seq<int>)
    requires Scalars(cs)
    ensures ValidUtf8(EncodedText(cs))
  {
    if cs != [] {
      EncodingsValid(cs[1..]);
      ScalarValid(cs[0], EncodedText(cs[1..]));
    }
  }

  lemma {:induction false} ValidEncodes(s: Bytes) returns (cs: seq<int>)
    requires ValidUtf8(s)
    ensures Scalars(cs) && s == EncodedText(cs)
    decreases |s|
  {
    if s == [] {
      cs := [];
    } else {
      var c, t := StartsEncoded(s);
      var rest := ValidEncodes(t);
      cs := [c] + rest;
      assert cs[1..] == rest;
    }
  }

  /** A byte string is valid exactly when it encodes some sequence of scalar values. */
  lemma ValidIff(s: Bytes)
    ensures ValidUtf8(s) <==> exists cs :: Scalars(cs) && s == EncodedText(cs)
  {
    if ValidUtf8(s) { var cs := ValidEncodes(s); }
    if exists cs :: Scalars(cs) && s == EncodedText(cs) {
      var cs :| Scalars(cs) && s == EncodedText(cs);
      EncodingsValid(cs);
    }
  }
}
