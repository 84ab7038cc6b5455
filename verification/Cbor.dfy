/**
  CBOR heads and the strict value readers of wire-mesh-wire `strict.rs`.

  A decoder at a position is the remaining input: a reader returns its value
  and what is left.  Byte strings stand for the decoder's slices, texts are
  byte strings that pass `ValidUtf8`.
 */
module Cbor {
  import opened Common

  const U64: int := 0x1_0000_0000_0000_0000
  const I64: int := 0x8000_0000_0000_0000

  /** The kinds of `DecodeError`; names and positions carried for display are left out. */
  datatype DecodeError =
    | Malformed
    | IndefiniteLength
    | NonMinimalHead
    | UnexpectedType
    | DuplicateKey
    | UnsortedMapKeys
    | UnknownKey
    | MissingField
    | BadLiteral
    | InvalidLength
    | WrongArity
    | Constraint
    | TrailingBytes

  type Decoded<T> = Result<T, DecodeError>

  lemma Associate(a: Bytes, b: Bytes, c: Bytes)
    ensures a + (b + c) == a + b + c
  {
  }

  // --- big-endian arguments ------------------------------------------------------

  function Pow256(k: nat): (r: nat)
    ensures r > 0
  {
    if k == 0 then 1 else 256 * Pow256(k - 1)
  }

  function BigEndian(v: nat, k: nat): (r: Bytes)
    ensures |r| == k
  {
    if k == 0 then [] else BigEndian(v / 256, k - 1) + [v % 256]
  }

  function FromBigEndian(s: Bytes): nat {
    if s == [] then 0 else FromBigEndian(s[..|s| - 1]) * 256 + s[|s| - 1]
  }

  lemma {:induction false} BigEndianRoundTrip(v: nat, k: nat)
    requires v < Pow256(k)
    ensures FromBigEndian(BigEndian(v, k)) == v
  {
    if k > 0 {
      BigEndianRoundTrip(v / 256, k - 1);
      assert BigEndian(v, k)[..k - 1] == BigEndian(v / 256, k - 1);
    }
  }

  lemma {:induction false} FromBigEndianRoundTrip(s: Bytes)
    ensures FromBigEndian(s) < Pow256(|s|) && BigEndian(FromBigEndian(s), |s|) == s
  {
    if s != [] {
      FromBigEndianRoundTrip(s[..|s| - 1]);
      var v := FromBigEndian(s[..|s| - 1]);
      assert (v * 256 + s[|s| - 1]) / 256 == v;
      assert s == s[..|s| - 1] + [s[|s| - 1]];
    }
  }

  lemma PowTable()
    ensures Pow256(1) == 0x100 && Pow256(2) == 0x1_0000 && Pow256(4) == 0x1_0000_0000 && Pow256(8) == U64
  {
    assert Pow256(2) == 256 * Pow256(1);
    assert Pow256(3) == 256 * Pow256(2);
    assert Pow256(4) == 256 * Pow256(3);
    assert Pow256(5) == 256 * Pow256(4);
    assert Pow256(6) == 256 * Pow256(5);
    assert Pow256(7) == 256 * Pow256(6);
  }

  // --- heads -----------------------------------------------------------------------

  /** `minimal_uint_head_len`. */
  function MinimalHeadLen(v: nat): nat {
    if v <= 23 then 1
    else if v <= 0xFF then 2
    else if v <= 0xFFFF then 3
    else if v <= 0xFFFF_FFFF then 5
    else 9
  }

  /** `minimal_int_head_len`, on the two's complement pattern the code computes with. */
  function MinimalIntHeadLen(v: int): nat
    requires -I64 <= v < I64
  {
    if v >= 0 then MinimalHeadLen(v)
    else
      var pattern := v + U64;
      var negated := (U64 - pattern) % U64;
      MinimalHeadLen((negated - 1) % U64)
  }

  /** How many argument bytes follow an initial byte with this additional information. */
  function ArgumentLen(info: nat): nat {
    if info < 24 then 0
    else if info == 24 then 1
    else if info == 25 then 2
    else if info == 26 then 4
    else 8
  }

  /** The additional information of the minimal head. */
  function HeadInfo(arg: nat): (info: nat)
    ensures info <= 27 && MinimalHeadLen(arg) == 1 + ArgumentLen(info)
    ensures info < 24 <==> arg <= 23
  {
    if arg <= 23 then arg
    else if arg <= 0xFF then 24
    else if arg <= 0xFFFF then 25
    else if arg <= 0xFFFF_FFFF then 26
    else 27
  }

  /** The minimal head of a major type and an argument. */
  function HeadBytes(major: nat, arg: nat): (r: Bytes)
    requires major < 8
    ensures |r| == MinimalHeadLen(arg)
  {
    var info := HeadInfo(arg);
    [major * 32 + info] + BigEndian(arg, ArgumentLen(info))
  }

  datatype Head = Head(major: nat, arg: nat, width: nat)

  /** Any definite head, minimal or not. */
  function ReadHead(s: Bytes): (r: Decoded<(Head, Bytes)>)
    ensures r.Ok? ==> |r.value.1| < |s| && r.value.0.major < 8
  {
    if s == [] then Err(Malformed)
    else
      var major, info := s[0] / 32, s[0] % 32;
      if info >= 28 then Err(Malformed)
      else
        var k := ArgumentLen(info);
        if |s| < 1 + k then Err(Malformed)
        else
          var arg := if k == 0 then info else FromBigEndian(s[1..1 + k]);
          Ok((Head(major, arg, 1 + k), s[1 + k..]))
  }

  lemma InitialByte(major: nat, info: nat)
    requires major < 8 && info < 32
    ensures (major * 32 + info) / 32 == major && (major * 32 + info) % 32 == info
  {
  }

  lemma ArgumentFits(arg: nat)
    requires arg < U64
    ensures HeadInfo(arg) >= 24 ==> arg < Pow256(ArgumentLen(HeadInfo(arg)))
  {
    PowTable();
  }

  /** Reading an initial byte and the argument bytes it announces. */
  lemma ReadsParts(major: nat, info: nat, argument: Bytes, t: Bytes)
    requires major < 8 && info < 28 && |argument| == ArgumentLen(info)
    ensures ReadHead([major * 32 + info] + argument + t) ==
            Ok((Head(major, if |argument| == 0 then info else FromBigEndian(argument), 1 + |argument|), t))
  {
    hide FromBigEndian;
    var s := [major * 32 + info] + argument + t;
    InitialByte(major, info);
    assert s[1 + |argument|..] == t;
    assert s[1..1 + |argument|] == argument;
  }

  /** A written head is read back, whatever follows it. */
  lemma HeadRoundTrip(major: nat, arg: nat, t: Bytes)
    requires major < 8 && arg < U64
    ensures ReadHead(HeadBytes(major, arg) + t) == Ok((Head(major, arg, MinimalHeadLen(arg)), t))
  {
    hide ReadHead, FromBigEndian, BigEndian;
    var info := HeadInfo(arg);
    var k := ArgumentLen(info);
    ReadsParts(major, info, BigEndian(arg, k), t);
    if k > 0 {
      ArgumentFits(arg);
      BigEndianRoundTrip(arg, k);
    }
  }

  lemma DivUnique(v: nat, d: nat, t: nat, r: nat)
    requires r < d && v == d * t + r
    ensures v / d == t
  {
    assert v == d * (v / d) + v % d;
    assert d * (v / d - t) == r - v % d;
    AtLeast(d, v / d - t);
  }

  lemma AtLeast(d: nat, x: int)
    ensures x >= 1 ==> d * x >= d
    ensures x <= -1 ==> d * x + d <= 0
  {
    if x >= 1 { assert d * x - d == d * (x - 1); }
    if x <= -1 { assert d * x + d == d * (x + 1); }
  }

  lemma DivTwice(v: nat, m: nat)
    requires m > 0
    ensures v / 256 / m == v / (256 * m)
  {
    var q := v / 256;
    var t := q / m;
    var s := q % m;
    assert q == m * t + s && 256 * s + v % 256 < 256 * m;
    assert v == 256 * (m * t + s) + v % 256;
    assert 256 * (m * t) == (256 * m) * t;
    DivUnique(v, 256 * m, t, 256 * s + v % 256);
  }

  /** Most significant byte first. */
  lemma {:induction false} BigEndianAt(v: nat, k: nat, i: nat)
    requires i < k
    ensures BigEndian(v, k)[i] == v / Pow256(k - 1 - i) % 256
    decreases k
  {
    if i < k - 1 {
      BigEndianAt(v / 256, k - 1, i);
      DivTwice(v, Pow256(k - 2 - i));
    }
  }

  /**
    The five forms of a head (section 3 of RFC 8949): the initial byte holds the
    major type and, up to 23, the argument; else 24 to 27 and the argument in one,
    two, four or eight bytes, most significant first.
   */
  lemma HeadForms(major: nat, arg: nat)
    requires major < 8 && arg < U64
    ensures var r := HeadBytes(major, arg);
            && (arg < 24 ==> r == [major * 32 + arg])
            && (24 <= arg < 0x100 ==> |r| == 2 && r[0] == major * 32 + 24)
            && (0x100 <= arg < 0x1_0000 ==> |r| == 3 && r[0] == major * 32 + 25)
            && (0x1_0000 <= arg < 0x1_0000_0000 ==> |r| == 5 && r[0] == major * 32 + 26)
            && (0x1_0000_0000 <= arg ==> |r| == 9 && r[0] == major * 32 + 27)
            && (24 <= arg ==> forall i :: 1 <= i < |r| ==> r[i] == arg / Pow256(|r| - 1 - i) % 256)
  {
    var r := HeadBytes(major, arg);
    var k := ArgumentLen(HeadInfo(arg));
    hide BigEndian, Pow256;
    forall i | 1 <= i < |r|
      ensures r[i] == arg / Pow256(|r| - 1 - i) % 256
    {
      BigEndianAt(arg, k, i - 1);
      assert r[i] == BigEndian(arg, k)[i - 1];
    }
  }

  /** A minimal width pins the additional information. */
  lemma WidthDeterminesInfo(info: nat, arg: nat)
    requires info <= 27 && 1 + ArgumentLen(info) == MinimalHeadLen(arg) && (info < 24 ==> arg == info)
    ensures info == HeadInfo(arg)
  {
  }

  /** A head that has minimal width is the one the encoder writes. */
  lemma HeadCanonical(s: Bytes)
    requires ReadHead(s).Ok? && ReadHead(s).value.0.width == MinimalHeadLen(ReadHead(s).value.0.arg)
    ensures var (h, t) := ReadHead(s).value;
            s == HeadBytes(h.major, h.arg) + t && h.arg < U64
  {
    PowTable();
    var (h, t) := ReadHead(s).value;
    var info := s[0] % 32;
    var k := ArgumentLen(info);
    WidthDeterminesInfo(info, h.arg);
    assert s == [s[0]] + s[1..1 + k] + t;
    FromBigEndianRoundTrip(s[1..1 + k]);
  }

  /** The signed width is the width of the head the encoder writes, including for the minimum. */
  lemma SignedHeadLen(v: int)
    requires -I64 <= v < I64
    ensures MinimalIntHeadLen(v) == |IntBytes(v)|
  {
    if v < 0 {
      SmallMod(-v, U64);
      SmallMod(-v - 1, U64);
    }
  }

  lemma SmallMod(x: int, m: int)
    requires 0 <= x < m
    ensures x % m == x
  {
  }

  /** `Encoder::i64`. */
  function IntBytes(v: int): Bytes {
    if v >= 0 then HeadBytes(0, v) else HeadBytes(1, -1 - v)
  }

  /** The low bytes of an argument, as an `as u8`, `as u16` or `as u32` cast keeps them. */
  function LowBytes(argument: nat, k: nat): (r: Bytes)
    ensures argument < Pow256(k) ==> r == BigEndian(argument, k)
  {
    assert argument < Pow256(k) ==> argument % Pow256(k) == argument by {
      if argument < Pow256(k) { SmallMod(argument, Pow256(k)); }
    }
    BigEndian(argument % Pow256(k), k)
  }

  /** `push_head`: append a minimal head, keeping the top three bits of `majorByte`. */
  method PushHead(out: Bytes, majorByte: byte, argument: nat) returns (out': Bytes)
    requires argument < U64
    ensures out' == out + HeadBytes(majorByte / 32, argument)
  {
    ArgumentFits(argument);
    var m := majorByte / 32 * 32;
    var first: byte, rest: Bytes;
    match MinimalHeadLen(argument) {
    case 1 => first, rest := m + argument, [];
    case 2 => first, rest := m + 24, LowBytes(argument, 1);
    case 3 => first, rest := m + 25, LowBytes(argument, 2);
    case 5 => first, rest := m + 26, LowBytes(argument, 4);
    case _ => first, rest := m + 27, LowBytes(argument, 8);
    }
    assert [first] + rest == HeadBytes(majorByte / 32, argument);
    out' := out + [first];
    out' := out' + rest;
    assert out' == out + ([first] + rest);
  }

  // --- UTF-8 (section 4 of RFC 3629) ------------------------------------------------

  predicate Continuation(b: byte) {
    0x80 <= b <= 0xBF
  }

  predicate ValidUtf8(s: Bytes) {
    if s == [] then true
    else if s[0] <= 0x7F then ValidUtf8(s[1..])
    else if 0xC2 <= s[0] <= 0xDF then
      |s| >= 2 && Continuation(s[1]) && ValidUtf8(s[2..])
    else if 0xE0 <= s[0] <= 0xEF then
      && |s| >= 3
      && (if s[0] == 0xE0 then 0xA0 <= s[1] <= 0xBF else if s[0] == 0xED then 0x80 <= s[1] <= 0x9F else Continuation(s[1]))
      && Continuation(s[2]) && ValidUtf8(s[3..])
    else if 0xF0 <= s[0] <= 0xF4 then
      && |s| >= 4
      && (if s[0] == 0xF0 then 0x90 <= s[1] <= 0xBF else if s[0] == 0xF4 then 0x80 <= s[1] <= 0x8F else Continuation(s[1]))
      && Continuation(s[2]) && Continuation(s[3]) && ValidUtf8(s[4..])
    else false
  }

  lemma {:induction false} AsciiIsValid(s: Bytes)
    requires forall i :: 0 <= i < |s| ==> s[i] <= 0x7F
    ensures ValidUtf8(s)
  {
    if s != [] {
      AsciiIsValid(s[1..]);
    }
  }

  // --- strict readers -----------------------------------------------------------------

  /** Does the next item start a definite head of this major type (`Decoder::datatype`)? */
  predicate StartsWith(s: Bytes, major: nat) {
    s != [] && s[0] / 32 == major && s[0] % 32 <= 27
  }

  function MinimalHead(s: Bytes): (r: Decoded<(nat, Bytes)>)
    ensures r.Ok? ==> |r.value.1| < |s|
  {
    var (h, t) :- ReadHead(s);
    if h.width == MinimalHeadLen(h.arg) then Ok((h.arg, t)) else Err(NonMinimalHead)
  }

  /** `uint_value`. */
  function ReadUint(s: Bytes): (r: Decoded<(nat, Bytes)>)
    ensures r.Ok? ==> |r.value.1| < |s|
  {
    if s == [] then Err(Malformed)
    else if StartsWith(s, 0) then MinimalHead(s)
    else Err(UnexpectedType)
  }

  /** `int_value`. */
  function ReadInt(s: Bytes): (r: Decoded<(int, Bytes)>)
    ensures r.Ok? ==> |r.value.1| < |s|
  {
    if s == [] then Err(Malformed)
    else if StartsWith(s, 0) then
      var (v, t) :- MinimalHead(s);
      if v < I64 then Ok((v, t)) else Err(Constraint)
    else if StartsWith(s, 1) then
      var (h, t) :- ReadHead(s);
      if h.arg >= I64 then Err(Malformed)
      else if h.width == MinimalIntHeadLen(-1 - h.arg) then Ok((-1 - h.arg, t))
      else Err(NonMinimalHead)
    else Err(UnexpectedType)
  }

  /** `bytes_value`. */
  function ReadBytes(s: Bytes): (r: Decoded<(Bytes, Bytes)>)
    ensures r.Ok? ==> |r.value.1| < |s|
  {
    if s == [] then Err(Malformed)
    else if StartsWith(s, 2) then
      var (h, t) :- ReadHead(s);
      if |t| < h.arg then Err(Malformed)
      else if h.width == MinimalHeadLen(h.arg) then Ok((t[..h.arg], t[h.arg..]))
      else Err(NonMinimalHead)
    else Err(UnexpectedType)
  }

  /** `text_value` and `text_key`. */
  function ReadText(s: Bytes): (r: Decoded<(Bytes, Bytes)>)
    ensures r.Ok? ==> |r.value.1| < |s|
  {
    if s == [] then Err(Malformed)
    else if StartsWith(s, 3) then
      var (h, t) :- ReadHead(s);
      if |t| < h.arg || !ValidUtf8(t[..h.arg]) then Err(Malformed)
      else if h.width == MinimalHeadLen(h.arg) then Ok((t[..h.arg], t[h.arg..]))
      else Err(NonMinimalHead)
    else Err(UnexpectedType)
  }

  /** `definite_array` (major 4) and `definite_map` (major 5). */
  function ReadCount(s: Bytes, major: nat): (r: Decoded<(nat, Bytes)>)
    ensures r.Ok? ==> |r.value.1| < |s|
  {
    if s == [] || s[0] / 32 != major then Err(Malformed)
    else if s[0] % 32 == 31 then Err(IndefiniteLength)
    else MinimalHead(s)
  }

  function BytesItem(b: Bytes): Bytes {
    HeadBytes(2, |b|) + b
  }

  /** `encoded_text`. */
  function TextItem(t: Bytes): Bytes {
    HeadBytes(3, |t|) + t
  }

  predicate TextValue(t: Bytes) {
    |t| < U64 && ValidUtf8(t)
  }

  lemma HeadStarts(major: nat, arg: nat, t: Bytes)
    requires major < 8
    ensures StartsWith(HeadBytes(major, arg) + t, major)
    ensures var s := HeadBytes(major, arg) + t; s[0] / 32 == major && s[0] % 32 <= 27
  {
    var s := HeadBytes(major, arg) + t;
    assert s[0] == HeadBytes(major, arg)[0];
  }

  lemma UintReader(v: nat, s: Bytes, t: Bytes)
    requires v < U64
    ensures ReadUint(HeadBytes(0, v) + t) == Ok((v, t))
    ensures ReadUint(s) == Ok((v, t)) ==> s == HeadBytes(0, v) + t
  {
    HeadStarts(0, v, t);
    HeadRoundTrip(0, v, t);
    if ReadUint(s) == Ok((v, t)) {
      HeadCanonical(s);
    }
  }

  lemma UintRange(s: Bytes)
    requires ReadUint(s).Ok?
    ensures ReadUint(s).value.0 < U64
  {
    HeadCanonical(s);
  }

  lemma IntReader(v: int, s: Bytes, t: Bytes)
    requires -I64 <= v < I64
    ensures ReadInt(IntBytes(v) + t) == Ok((v, t))
    ensures ReadInt(s) == Ok((v, t)) ==> s == IntBytes(v) + t
  {
    hide ReadInt, IntBytes;
    IntReads(v, t);
    if ReadInt(s) == Ok((v, t)) { IntCanonical(s); }
  }

  lemma IntReads(v: int, t: Bytes)
    requires -I64 <= v < I64
    ensures ReadInt(IntBytes(v) + t) == Ok((v, t))
  {
    SignedHeadLen(v);
    hide HeadBytes, ReadHead, MinimalHeadLen, MinimalIntHeadLen;
    if v >= 0 {
      HeadStarts(0, v, t);
      HeadRoundTrip(0, v, t);
    } else {
      HeadStarts(1, -1 - v, t);
      HeadRoundTrip(1, -1 - v, t);
    }
  }

  lemma IntCanonical(s: Bytes)
    requires ReadInt(s).Ok?
    ensures s == IntBytes(ReadInt(s).value.0) + ReadInt(s).value.1
  {
    var h := ReadHead(s).value.0;
    HeadMajor(s);
    if h.major == 1 { SignedHeadLen(-1 - h.arg); }
    hide HeadBytes, ReadHead, MinimalHeadLen, MinimalIntHeadLen;
    HeadCanonical(s);
  }

  lemma HeadMajor(s: Bytes)
    requires ReadHead(s).Ok?
    ensures s != [] && ReadHead(s).value.0.major == s[0] / 32
  {
  }

  lemma IntRange(s: Bytes)
    requires ReadInt(s).Ok?
    ensures -I64 <= ReadInt(s).value.0 < I64
  {
  }

  lemma BytesReader(b: Bytes, s: Bytes, t: Bytes)
    requires |b| < U64
    ensures ReadBytes(BytesItem(b) + t) == Ok((b, t))
    ensures ReadBytes(s) == Ok((b, t)) ==> s == BytesItem(b) + t
  {
    assert BytesItem(b) + t == HeadBytes(2, |b|) + (b + t);
    HeadStarts(2, |b|, b + t);
    HeadRoundTrip(2, |b|, b + t);
    if ReadBytes(s) == Ok((b, t)) {
      HeadCanonical(s);
      var u := ReadHead(s).value.1;
      assert u == u[..|b|] + u[|b|..];
    }
  }

  lemma BytesRange(s: Bytes)
    requires ReadBytes(s).Ok?
    ensures |ReadBytes(s).value.0| < U64
  {
    HeadCanonical(s);
  }

  lemma TextReader(x: Bytes, s: Bytes, t: Bytes)
    requires TextValue(x)
    ensures ReadText(TextItem(x) + t) == Ok((x, t))
    ensures ReadText(s) == Ok((x, t)) ==> s == TextItem(x) + t
  {
    assert TextItem(x) + t == HeadBytes(3, |x|) + (x + t);
    HeadStarts(3, |x|, x + t);
    HeadRoundTrip(3, |x|, x + t);
    assert (x + t)[..|x|] == x;
    if ReadText(s) == Ok((x, t)) {
      HeadCanonical(s);
      var u := ReadHead(s).value.1;
      assert u == u[..|x|] + u[|x|..];
    }
  }

  lemma TextRange(s: Bytes)
    requires ReadText(s).Ok?
    ensures TextValue(ReadText(s).value.0)
  {
    HeadCanonical(s);
  }

  lemma CountReader(major: nat, n: nat, s: Bytes, t: Bytes)
    requires major < 8 && n < U64
    ensures ReadCount(HeadBytes(major, n) + t, major) == Ok((n, t))
    ensures ReadCount(s, major) == Ok((n, t)) ==> s == HeadBytes(major, n) + t
  {
    HeadStarts(major, n, t);
    HeadRoundTrip(major, n, t);
    if ReadCount(s, major) == Ok((n, t)) {
      HeadCanonical(s);
    }
  }

  lemma CountRange(s: Bytes, major: nat)
    requires ReadCount(s, major).Ok?
    ensures ReadCount(s, major).value.0 < U64
  {
    HeadCanonical(s);
  }
}
