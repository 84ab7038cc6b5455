/**
  The strict readers as the code runs them: a decoder whose position moves,
  the key-order tracker and the map iterator.  Each method is proved to read
  what the reader of the same name reads from the remaining input.
 */
module Decoders {
  import opened Common
  import opened Cbor
  import opened CdeOrder
  import opened Value
  import opened Schema

  /** A method's outcome and the input left over agree with a reader. */
  predicate Tracks<T(==)>(spec: Decoded<(T, Bytes)>, r: Decoded<T>, rest: Bytes) {
    match spec
    case Ok((v, t)) => r == Ok(v) && rest == t
    case Err(e) => r == Err(e)
  }

  lemma SliceOfRest(input: Bytes, pos: nat, a: nat, b: nat)
    requires pos + b <= |input| && a <= b
    ensures input[pos..][a..b] == input[pos + a..pos + b] && input[pos..][b..] == input[pos + b..]
  {
  }

  class Decoder {
    const input: Bytes
    var pos: nat

    ghost predicate Valid()
      reads this
    {
      pos <= |input|
    }

    /** What is left to read. */
    ghost function Rest(): (s: Bytes)
      requires Valid()
      reads this
      ensures |s| == |input| - pos
    {
      input[pos..]
    }

    constructor (bytes: Bytes)
      ensures Valid() && input == bytes && pos == 0 && Rest() == bytes
    {
      input, pos := bytes, 0;
    }

    /** A head of any width: initial byte, then a big-endian argument. */
    method ReadAnyHead() returns (r: Decoded<Head>)
      requires Valid()
      modifies this
      ensures Valid() && old(pos) <= pos && Tracks(ReadHead(old(Rest())), r, Rest())
      ensures r.Ok? ==> pos == old(pos) + r.value.width
    {
      ghost var s := Rest();
      if pos == |input| { return Err(Malformed); }
      var first := input[pos];
      assert first == s[0];
      var major, info := first / 32, first % 32;
      if info >= 28 { return Err(Malformed); }
      var k := ArgumentLen(info);
      if |input| - pos < 1 + k { return Err(Malformed); }
      var arg := if k == 0 then info else FromBigEndian(input[pos + 1..pos + 1 + k]);
      SliceOfRest(input, pos, 1, 1 + k);
      pos := pos + 1 + k;
      return Ok(Head(major, arg, 1 + k));
    }

    /** A string body after its head. */
    method Take(n: nat) returns (r: Decoded<Bytes>)
      requires Valid()
      modifies this
      ensures Valid() && old(pos) <= pos
      ensures var s := old(Rest());
              if |s| < n then r == Err(Malformed) && pos == old(pos) else r == Ok(s[..n]) && Rest() == s[n..]
    {
      ghost var s := Rest();
      if |input| - pos < n { return Err(Malformed); }
      var body := input[pos..pos + n];
      SliceOfRest(input, pos, 0, n);
      pos := pos + n;
      return Ok(body);
    }

    method UintValue() returns (r: Decoded<nat>)
      requires Valid()
      modifies this
      ensures Valid() && old(pos) <= pos && Tracks(ReadUint(old(Rest())), r, Rest())
    {
      hide ReadHead;
      if pos == |input| { return Err(Malformed); }
      assert input[pos] == Rest()[0];
      if !(input[pos] / 32 == 0 && input[pos] % 32 <= 27) { return Err(UnexpectedType); }
      var before := pos;
      var h := ReadAnyHead();
      if h.Err? { return Err(h.error); }
      if pos - before != MinimalHeadLen(h.value.arg) { return Err(NonMinimalHead); }
      return Ok(h.value.arg);
    }

    method IntValue() returns (r: Decoded<int>)
      requires Valid()
      modifies this
      ensures Valid() && old(pos) <= pos && Tracks(ReadInt(old(Rest())), r, Rest())
    {
      hide ReadHead;
      if pos == |input| { return Err(Malformed); }
      assert input[pos] == Rest()[0];
      var before := pos;
      if input[pos] / 32 == 0 && input[pos] % 32 <= 27 {
        var h := ReadAnyHead();
        if h.Err? { return Err(h.error); }
        if pos - before != MinimalHeadLen(h.value.arg) { return Err(NonMinimalHead); }
        return if h.value.arg < I64 then Ok(h.value.arg) else Err(Constraint);
      }
      if input[pos] / 32 == 1 && input[pos] % 32 <= 27 {
        var h := ReadAnyHead();
        if h.Err? { return Err(h.error); }
        if h.value.arg >= I64 { return Err(Malformed); }
        var v := -1 - h.value.arg;
        if pos - before != MinimalIntHeadLen(v) { return Err(NonMinimalHead); }
        return Ok(v);
      }
      return Err(UnexpectedType);
    }

    method BytesValue() returns (r: Decoded<Bytes>)
      requires Valid()
      modifies this
      ensures Valid() && old(pos) <= pos && Tracks(ReadBytes(old(Rest())), r, Rest())
    {
      hide ReadHead, MinimalHeadLen;
      if pos == |input| { return Err(Malformed); }
      assert input[pos] == Rest()[0];
      if !(input[pos] / 32 == 2 && input[pos] % 32 <= 27) { return Err(UnexpectedType); }
      var before := pos;
      var h := ReadAnyHead();
      if h.Err? { return Err(h.error); }
      var value := Take(h.value.arg);
      if value.Err? { return value; }
      if pos - before - |value.value| != MinimalHeadLen(|value.value|) { return Err(NonMinimalHead); }
      return value;
    }

    /** `text_value` and `text_key`. */
    method TextValue() returns (r: Decoded<Bytes>)
      requires Valid()
      modifies this
      ensures Valid() && old(pos) <= pos && Tracks(ReadText(old(Rest())), r, Rest())
    {
      hide ReadHead, ValidUtf8, MinimalHeadLen;
      if pos == |input| { return Err(Malformed); }
      assert input[pos] == Rest()[0];
      if !(input[pos] / 32 == 3 && input[pos] % 32 <= 27) { return Err(UnexpectedType); }
      var before := pos;
      var h := ReadAnyHead();
      if h.Err? { return Err(h.error); }
      var value := Take(h.value.arg);
      if value.Err? { return value; }
      if !ValidUtf8(value.value) { return Err(Malformed); }
      if pos - before - |value.value| != MinimalHeadLen(|value.value|) { return Err(NonMinimalHead); }
      return value;
    }

    /** `definite_array` (major 4) and `definite_map` (major 5). */
    method DefiniteCount(major: nat) returns (r: Decoded<nat>)
      requires Valid()
      modifies this
      ensures Valid() && old(pos) <= pos && Tracks(ReadCount(old(Rest()), major), r, Rest())
    {
      hide ReadHead;
      if pos == |input| { return Err(Malformed); }
      assert input[pos] == Rest()[0];
      if input[pos] / 32 != major { return Err(Malformed); }
      if input[pos] % 32 == 31 { return Err(IndefiniteLength); }
      var before := pos;
      var h := ReadAnyHead();
      if h.Err? { return Err(h.error); }
      if pos - before != MinimalHeadLen(h.value.arg) { return Err(NonMinimalHead); }
      return Ok(h.value.arg);
    }

    /** `HeaderLabel::decode_strict` where `labels`, else `text_key`. */
    method LabelKey(labels: bool) returns (r: Decoded<Label>)
      requires Valid()
      modifies this
      ensures Valid() && old(pos) <= pos && Tracks(ReadLabel(labels, old(Rest())), r, Rest())
    {
      hide ReadUint, ReadInt, ReadText;
      assert pos < |input| ==> input[pos] == Rest()[0];
      if labels && pos < |input| && input[pos] / 32 == 0 && input[pos] % 32 <= 27 {
        var v := UintValue();
        if v.Err? { return Err(v.error); }
        return if v.value < I64 then Ok(IntLabel(v.value)) else Err(Constraint);
      }
      if labels && pos < |input| && input[pos] / 32 == 1 && input[pos] % 32 <= 27 {
        var v := IntValue();
        return if v.Err? then Err(v.error) else Ok(IntLabel(v.value));
      }
      var x := TextValue();
      return if x.Err? then Err(x.error) else Ok(TextLabel(x.value));
    }

    /** One item of any form, passed over unchecked. */
    method SkipItem() returns (r: Decoded<()>)
      requires Valid()
      modifies this
      ensures Valid() && old(pos) <= pos
      ensures match Skip(old(Rest()))
              case Ok(t) => r == Ok(()) && Rest() == t
              case Err(e) => r == Err(e) && pos == old(pos)
    {
      var t := Skip(input[pos..]);
      if t.Err? { return Err(t.error); }
      SkipSuffix(input[pos..]);
      pos := |input| - |t.value|;
      assert Rest() == t.value;
      return Ok(());
    }
  }

  // --- skipping lands on a suffix ---------------------------------------------------------------

  predicate Suffix(t: Bytes, s: Bytes) {
    |t| <= |s| && t == s[|s| - |t|..]
  }

  lemma SuffixTransitive(a: Bytes, b: Bytes, c: Bytes)
    requires Suffix(a, b) && Suffix(b, c)
    ensures Suffix(a, c)
  {
  }

  lemma {:induction false} SkipSuffix(s: Bytes)
    requires Skip(s).Ok?
    ensures Suffix(Skip(s).value, s)
    decreases |s|, 0, 0
  {
    var major, info := s[0] / 32, s[0] % 32;
    if info == 31 {
      if major == 2 || major == 3 {
        SkipChunksSuffix(s[1..], major);
        SuffixTransitive(Skip(s).value, s[1..], s);
      } else {
        SkipToBreakSuffix(s[1..]);
        SuffixTransitive(Skip(s).value, s[1..], s);
      }
    } else {
      var t := ReadHead(s).value.1;
      assert Suffix(t, s);
      if major == 4 {
        SkipItemsSuffix(t, ReadHead(s).value.0.arg);
        SuffixTransitive(Skip(s).value, t, s);
      } else if major == 5 {
        SkipItemsSuffix(t, 2 * ReadHead(s).value.0.arg);
        SuffixTransitive(Skip(s).value, t, s);
      } else if major == 6 {
        SkipSuffix(t);
        SuffixTransitive(Skip(s).value, t, s);
      }
    }
  }

  lemma {:induction false} SkipItemsSuffix(s: Bytes, n: nat)
    requires SkipItems(s, n).Ok?
    ensures Suffix(SkipItems(s, n).value, s)
    decreases |s|, 1, n
  {
    if n > 0 {
      SkipSuffix(s);
      SkipItemsSuffix(Skip(s).value, n - 1);
      SuffixTransitive(SkipItems(s, n).value, Skip(s).value, s);
    }
  }

  lemma {:induction false} SkipToBreakSuffix(s: Bytes)
    requires SkipToBreak(s).Ok?
    ensures Suffix(SkipToBreak(s).value, s)
    decreases |s|, 1, 0
  {
    if s[0] != 0xFF {
      SkipSuffix(s);
      SkipToBreakSuffix(Skip(s).value);
      SuffixTransitive(SkipToBreak(s).value, Skip(s).value, s);
    }
  }

  lemma {:induction false} SkipChunksSuffix(s: Bytes, major: nat)
    requires SkipChunks(s, major).Ok?
    ensures Suffix(SkipChunks(s, major).value, s)
    decreases |s|, 1, 0
  {
    if s[0] != 0xFF {
      var (h, t) := ReadHead(s).value;
      SkipChunksSuffix(t[h.arg..], major);
      assert Suffix(t[h.arg..], s);
      SuffixTransitive(SkipChunks(s, major).value, t[h.arg..], s);
    }
  }

  // --- key order ------------------------------------------------------------------------------------

  class KeyOrder {
    var prev: Previous

    constructor ()
      ensures prev == First
    {
      prev := First;
    }

    /** Accept a key only if it sorts strictly after the last one accepted. */
    method Push(key: Bytes) returns (r: Decoded<()>)
      modifies this
      ensures r == CheckKey(old(prev), key)
      ensures prev == if r.Ok? then After(key) else old(prev)
    {
      if prev.After? {
        if prev.key == key { CdeTrichotomy(key, key); return Err(DuplicateKey); }
        if !CdeLess(prev.key, key) { return Err(UnsortedMapKeys); }
      }
      prev := After(key);
      return Ok(());
    }
  }

  class MapDecoder {
    var remaining: nat
    const order: KeyOrder

    constructor (n: nat)
      ensures remaining == n && fresh(order) && order.prev == First
    {
      remaining := n;
      order := new KeyOrder();
    }

    /** The next text key, in order, or none when the map is exhausted. */
    method NextKey(d: Decoder) returns (r: Decoded<Opt<Bytes>>)
      requires d.Valid()
      modifies this, order, d
      ensures d.Valid() && old(d.pos) <= d.pos
      ensures old(remaining) == 0 ==> r == Ok(No) && d.pos == old(d.pos) && remaining == 0 && order.prev == old(order.prev)
      ensures old(remaining) > 0 ==>
                match ReadText(old(d.Rest()))
                case Err(e) => r == Err(e)
                case Ok((x, t)) =>
                  match CheckKey(old(order.prev), TextItem(x))
                  case Err(e) => r == Err(e)
                  case Ok(_) => r == Ok(Yes(x)) && d.Rest() == t && remaining == old(remaining) - 1 && order.prev == After(TextItem(x))
    {
      hide ReadText, TextItem, CdeLess;
      if remaining == 0 { return Ok(No); }
      remaining := remaining - 1;
      var key := d.TextValue();
      if key.Err? { return Err(key.error); }
      var ordered := order.Push(TextItem(key.value));
      if ordered.Err? { return Err(ordered.error); }
      return Ok(Yes(key.value));
    }
  }
}
