/**
  The CBOR value DOM of wire-mesh-wire `value.rs`: strict decoding, encoding,
  and the two directions of the bijection between normal-form values and
  accepted byte strings.  `Skip` is the decoder's unchecked skip over one
  well-formed item (appendix C of RFC 8949).
 */
module Value {
  import opened Common
  import opened Cbor
  import opened CdeOrder

  datatype CborValue =
    | Null
    | Bool(b: bool)
    | Int(i: int)
    | UInt(u: nat)
    | ByteString(bytes: Bytes)
    | Text(text: Bytes)
    | Array(items: seq<CborValue>)
    | Map(entries: seq<Entry>)

  datatype Entry = Entry(key: CborValue, value: CborValue)

  // --- encoding -----------------------------------------------------------------------

  function EncodeValue(v: CborValue): Bytes
    decreases v, 0
  {
    match v
    case Null => [0xF6]
    case Bool(b) => if b then [0xF5] else [0xF4]
    case Int(i) => IntBytes(i)
    case UInt(u) => HeadBytes(0, u)
    case ByteString(b) => BytesItem(b)
    case Text(t) => TextItem(t)
    case Array(items) => HeadBytes(4, |items|) + EncodeItems(items)
    case Map(entries) => HeadBytes(5, |entries|) + EncodeEntries(entries)
  }

  function EncodeItems(items: seq<CborValue>): Bytes
    decreases items, 1
  {
    if items == [] then [] else EncodeValue(items[0]) + EncodeItems(items[1..])
  }

  function EncodeEntries(es: seq<Entry>): Bytes
    decreases es, 1
  {
    if es == [] then [] else EncodeEntry(es[0]) + EncodeEntries(es[1..])
  }

  function EncodeEntry(e: Entry): Bytes
    decreases e, 1
  {
    EncodeValue(e.key) + EncodeValue(e.value)
  }

  /** The major type and argument of each kind of value (section 3.1 of RFC 8949). */
  lemma ValueHead(v: CborValue)
    requires Normal(v)
    ensures ReadHead(EncodeValue(v)).Ok?
    ensures var h := ReadHead(EncodeValue(v)).value.0;
            match v
            case Null => h.major == 7 && h.arg == 22
            case Bool(b) => h.major == 7 && h.arg == if b then 21 else 20
            case Int(i) => h.major == 1 && h.arg == -1 - i
            case UInt(u) => h.major == 0 && h.arg == u
            case ByteString(b) => h.major == 2 && h.arg == |b| && ReadHead(EncodeValue(v)).value.1 == b
            case Text(t) => h.major == 3 && h.arg == |t| && ReadHead(EncodeValue(v)).value.1 == t
            case Array(items) => h.major == 4 && h.arg == |items|
            case Map(entries) => h.major == 5 && h.arg == |entries|
  {
    var s := EncodeValue(v);
    match v
    case Null => assert s[1..] == [];
    case Bool(_) => assert s[1..] == [];
    case Int(i) => HeadRoundTrip(1, -1 - i, []); assert s + [] == s;
    case UInt(u) => HeadRoundTrip(0, u, []); assert s + [] == s;
    case ByteString(b) => HeadRoundTrip(2, |b|, b);
    case Text(t) => HeadRoundTrip(3, |t|, t);
    case Array(items) => HeadRoundTrip(4, |items|, EncodeItems(items));
    case Map(entries) => HeadRoundTrip(5, |entries|, EncodeEntries(entries));
  }

  // --- normal form ---------------------------------------------------------------------

  /** The values strict decoding can produce. */
  predicate Normal(v: CborValue)
    decreases v, 0
  {
    match v
    case Null => true
    case Bool(_) => true
    case Int(i) => -I64 <= i < 0
    case UInt(u) => u < U64
    case ByteString(b) => |b| < U64
    case Text(t) => TextValue(t)
    case Array(items) => |items| < U64 && NormalItems(items)
    case Map(entries) => |entries| < U64 && NormalEntries(First, entries)
  }

  predicate NormalItems(items: seq<CborValue>)
    decreases items, 1
  {
    items == [] || (Normal(items[0]) && NormalItems(items[1..]))
  }

  predicate NormalEntries(prev: Previous, es: seq<Entry>)
    decreases es, 1
  {
    es == [] || (NormalEntry(prev, es[0]) && NormalEntries(After(EncodeValue(es[0].key)), es[1..]))
  }

  predicate NormalEntry(prev: Previous, e: Entry)
    decreases e, 1
  {
    Normal(e.key) && Normal(e.value) && Before(prev, EncodeValue(e.key))
  }

  // --- strict decoding -------------------------------------------------------------------

  /** `CborValue::decode_strict`. */
  function DecodeValue(s: Bytes): (r: Decoded<(CborValue, Bytes)>)
    ensures r.Ok? ==> |r.value.1| < |s|
    decreases |s|, 0, 0
  {
    if s == [] then Err(Malformed)
    else if s[0] == 0xF6 then Ok((Null, s[1..]))
    else if s[0] == 0xF4 || s[0] == 0xF5 then Ok((Bool(s[0] == 0xF5), s[1..]))
    else if StartsWith(s, 0) then
      var (u, t) :- ReadUint(s);
      Ok((UInt(u), t))
    else if StartsWith(s, 1) then
      var (i, t) :- ReadInt(s);
      Ok((Int(i), t))
    else if StartsWith(s, 2) then
      var (b, t) :- ReadBytes(s);
      Ok((ByteString(b), t))
    else if StartsWith(s, 3) then
      var (x, t) :- ReadText(s);
      Ok((Text(x), t))
    else if StartsWith(s, 4) then
      var (n, t) :- ReadCount(s, 4);
      var (items, u) :- DecodeItems(t, n);
      Ok((Array(items), u))
    else if StartsWith(s, 5) then
      var (n, t) :- ReadCount(s, 5);
      var (entries, u) :- DecodeEntries(t, n, First);
      Ok((Map(entries), u))
    else Err(UnexpectedType)
  }

  function DecodeItems(s: Bytes, n: nat): (r: Decoded<(seq<CborValue>, Bytes)>)
    ensures r.Ok? ==> |r.value.1| <= |s| && |r.value.0| == n
    decreases |s|, 1, n
  {
    if n == 0 then Ok(([], s))
    else
      var (v, t) :- DecodeValue(s);
      var (vs, u) :- DecodeItems(t, n - 1);
      Ok(([v] + vs, u))
  }

  function DecodeEntries(s: Bytes, n: nat, prev: Previous): (r: Decoded<(seq<Entry>, Bytes)>)
    ensures r.Ok? ==> |r.value.1| <= |s| && |r.value.0| == n
    decreases |s|, 1, n
  {
    if n == 0 then Ok(([], s))
    else
      var (e, t) :- DecodeEntry(s, prev);
      var (es, u) :- DecodeEntries(t, n - 1, After(EncodeValue(e.key)));
      Ok(([e] + es, u))
  }

  function DecodeEntry(s: Bytes, prev: Previous): (r: Decoded<(Entry, Bytes)>)
    ensures r.Ok? ==> |r.value.1| < |s|
    decreases |s|, 1, 0
  {
    var (k, t) :- DecodeValue(s);
    var _ :- CheckKey(prev, EncodeValue(k));
    var (v, u) :- DecodeValue(t);
    Ok((Entry(k, v), u))
  }

  // --- accepted bytes are canonical -----------------------------------------------------------

  predicate Nested(v: CborValue) {
    v.Array? || v.Map?
  }

  lemma LeafCanonical(s: Bytes)
    requires DecodeValue(s).Ok? && !Nested(DecodeValue(s).value.0)
    ensures var (v, t) := DecodeValue(s).value;
            Normal(v) && s == EncodeValue(v) + t
  {
    var (v, t) := DecodeValue(s).value;
    match v
    case Null => assert s == [s[0]] + s[1..];
    case Bool(_) => assert s == [s[0]] + s[1..];
    case UInt(u) => UintRange(s); UintReader(u, s, t);
    case Int(i) => IntRange(s); IntReader(i, s, t);
    case ByteString(b) => BytesRange(s); BytesReader(b, s, t);
    case Text(x) => TextRange(s); TextReader(x, s, t);
  }

  /** A counted head followed by the encoding of its contents. */
  lemma CountedCanonical(major: nat, s: Bytes, body: Bytes, t: Bytes)
    requires major < 8 && ReadCount(s, major).Ok? && ReadCount(s, major).value.1 == body + t
    ensures ReadCount(s, major).value.0 < U64
    ensures s == HeadBytes(major, ReadCount(s, major).value.0) + body + t
  {
    var (n, u) := ReadCount(s, major).value;
    CountRange(s, major);
    CountReader(major, n, s, u);
    assert HeadBytes(major, n) + (body + t) == HeadBytes(major, n) + body + t;
  }

  /** Whatever strict decoding accepts is the encoding of the value it returns. */
  lemma {:induction false} ValueCanonical(s: Bytes)
    requires DecodeValue(s).Ok?
    ensures var (v, t) := DecodeValue(s).value;
            Normal(v) && s == EncodeValue(v) + t
    decreases |s|, 0, 0
  {
    var (v, t) := DecodeValue(s).value;
    match v
    case Array(items) =>
      var (n, u) := ReadCount(s, 4).value;
      ItemsCanonical(u, n);
      CountedCanonical(4, s, EncodeItems(items), t);
    case Map(entries) =>
      var (n, u) := ReadCount(s, 5).value;
      EntriesCanonical(u, n, First);
      CountedCanonical(5, s, EncodeEntries(entries), t);
    case _ => LeafCanonical(s);
  }

  lemma {:induction false} ItemsCanonical(s: Bytes, n: nat)
    requires DecodeItems(s, n).Ok?
    ensures var (vs, t) := DecodeItems(s, n).value;
            NormalItems(vs) && s == EncodeItems(vs) + t
    decreases |s|, 1, n
  {
    if n > 0 {
      var (v, t) := DecodeValue(s).value;
      ValueCanonical(s);
      ItemsCanonical(t, n - 1);
      var (vs, u) := DecodeItems(t, n - 1).value;
      assert ([v] + vs)[0] == v && ([v] + vs)[1..] == vs;
      Associate(EncodeValue(v), EncodeItems(vs), u);
    }
  }

  lemma {:induction false} EntriesCanonical(s: Bytes, n: nat, prev: Previous)
    requires DecodeEntries(s, n, prev).Ok?
    ensures var (es, t) := DecodeEntries(s, n, prev).value;
            NormalEntries(prev, es) && s == EncodeEntries(es) + t
    decreases |s|, 1, n
  {
    if n > 0 {
      var (e, t) := DecodeEntry(s, prev).value;
      EntryCanonical(s, prev);
      var p := After(EncodeValue(e.key));
      EntriesCanonical(t, n - 1, p);
      var (es, u) := DecodeEntries(t, n - 1, p).value;
      assert ([e] + es)[0] == e && ([e] + es)[1..] == es;
      Associate(EncodeEntry(e), EncodeEntries(es), u);
    }
  }

  lemma {:induction false} EntryCanonical(s: Bytes, prev: Previous)
    requires DecodeEntry(s, prev).Ok?
    ensures var (e, t) := DecodeEntry(s, prev).value;
            NormalEntry(prev, e) && s == EncodeEntry(e) + t
    decreases |s|, 1, 0
  {
    var (k, t) := DecodeValue(s).value;
    ValueCanonical(s);
    ValueCanonical(t);
    var (v, u) := DecodeValue(t).value;
    Associate(EncodeValue(k), EncodeValue(v), u);
  }

  // --- values round-trip, and their encodings are prefix-free -----------------------------------

  lemma LeafRoundTrip(v: CborValue, t: Bytes)
    requires Normal(v) && !Nested(v)
    ensures DecodeValue(EncodeValue(v) + t) == Ok((v, t))
  {
    var s := EncodeValue(v) + t;
    match v
    case Null => assert s[1..] == t;
    case Bool(_) => assert s[1..] == t;
    case UInt(u) => HeadStarts(0, u, t); UintReader(u, s, t);
    case Int(i) => HeadStarts(1, -1 - i, t); IntReader(i, s, t);
    case ByteString(b) => StringStarts(2, b, t); BytesReader(b, s, t);
    case Text(x) => StringStarts(3, x, t); TextReader(x, s, t);
  }

  lemma CountedReads(major: nat, n: nat, body: Bytes, t: Bytes)
    requires 4 <= major <= 5 && n < U64
    ensures var s := HeadBytes(major, n) + body + t;
            StartsWith(s, major) && ReadCount(s, major) == Ok((n, body + t))
  {
    HeadStarts(major, n, body + t);
    CountReader(major, n, [], body + t);
    assert HeadBytes(major, n) + (body + t) == HeadBytes(major, n) + body + t;
  }

  /** Encoding then decoding returns the value and stops exactly at what follows. */
  lemma {:induction false} ValueRoundTrip(v: CborValue, t: Bytes)
    requires Normal(v)
    ensures DecodeValue(EncodeValue(v) + t) == Ok((v, t))
    decreases v, 0
  {
    match v
    case Array(items) =>
      CountedReads(4, |items|, EncodeItems(items), t);
      ItemsRoundTrip(items, t);
    case Map(entries) =>
      CountedReads(5, |entries|, EncodeEntries(entries), t);
      EntriesRoundTrip(First, entries, t);
    case _ => LeafRoundTrip(v, t);
  }

  lemma StringStarts(major: nat, b: Bytes, t: Bytes)
    requires major < 8
    ensures StartsWith(HeadBytes(major, |b|) + b + t, major)
  {
    HeadStarts(major, |b|, b + t);
    assert HeadBytes(major, |b|) + b + t == HeadBytes(major, |b|) + (b + t);
  }

  lemma {:induction false} ItemsRoundTrip(items: seq<CborValue>, t: Bytes)
    requires NormalItems(items)
    ensures DecodeItems(EncodeItems(items) + t, |items|) == Ok((items, t))
    decreases items, 1
  {
    if items == [] {
      assert [] + t == t;
    } else {
      var u := EncodeItems(items[1..]) + t;
      assert EncodeItems(items) + t == EncodeValue(items[0]) + u;
      ValueRoundTrip(items[0], u);
      ItemsRoundTrip(items[1..], t);
      assert items == [items[0]] + items[1..];
    }
  }

  lemma {:induction false} EntriesRoundTrip(prev: Previous, es: seq<Entry>, t: Bytes)
    requires NormalEntries(prev, es)
    ensures DecodeEntries(EncodeEntries(es) + t, |es|, prev) == Ok((es, t))
    decreases es, 1
  {
    if es == [] {
      assert [] + t == t;
    } else {
      var u := EncodeEntries(es[1..]) + t;
      assert EncodeEntries(es) + t == EncodeEntry(es[0]) + u;
      EntryRoundTrip(prev, es[0], u);
      EntriesRoundTrip(After(EncodeValue(es[0].key)), es[1..], t);
      assert es == [es[0]] + es[1..];
    }
  }

  lemma {:induction false} EntryRoundTrip(prev: Previous, e: Entry, t: Bytes)
    requires NormalEntry(prev, e)
    ensures DecodeEntry(EncodeEntry(e) + t, prev) == Ok((e, t))
    decreases e, 1
  {
    var u := EncodeValue(e.value) + t;
    assert EncodeEntry(e) + t == EncodeValue(e.key) + u;
    ValueRoundTrip(e.key, u);
    ValueRoundTrip(e.value, t);
  }

  /** The values that survive are exactly those in normal form; a non-negative `Int` is not. */
  lemma ValueRoundTripIff(v: CborValue, t: Bytes)
    ensures DecodeValue(EncodeValue(v) + t) == Ok((v, t)) <==> Normal(v)
  {
    hide DecodeValue, EncodeValue, Normal;
    if Normal(v) { ValueRoundTrip(v, t); }
    if DecodeValue(EncodeValue(v) + t) == Ok((v, t)) { ValueCanonical(EncodeValue(v) + t); }
  }

  /** No encoding is a proper prefix of another, and no two values share one. */
  lemma EncodingsPrefixFree(v: CborValue, w: CborValue, s: Bytes, t: Bytes)
    requires Normal(v) && Normal(w) && EncodeValue(v) + s == EncodeValue(w) + t
    ensures v == w && s == t
  {
    ValueRoundTrip(v, s);
    ValueRoundTrip(w, t);
  }

  // --- skipping ----------------------------------------------------------------------------------

  function Drop(s: Bytes, n: nat): (r: Decoded<Bytes>)
    ensures r.Ok? ==> |r.value| + n == |s|
  {
    if |s| < n then Err(Malformed) else Ok(s[n..])
  }

  /** `Decoder::skip`: one well-formed item, canonical or not. */
  function Skip(s: Bytes): (r: Decoded<Bytes>)
    ensures r.Ok? ==> |r.value| < |s|
    decreases |s|, 0, 0
  {
    if s == [] then Err(Malformed)
    else
      var major, info := s[0] / 32, s[0] % 32;
      if major == 7 then
        if info == 31 then Err(Malformed)
        else
          var (_, t) :- ReadHead(s);
          Ok(t)
      else if info == 31 then
        if major == 2 || major == 3 then SkipChunks(s[1..], major)
        else if major == 4 || major == 5 then SkipToBreak(s[1..])
        else Err(Malformed)
      else
        var (h, t) :- ReadHead(s);
        if major <= 1 then Ok(t)
        else if major == 2 then Drop(t, h.arg)
        else if major == 3 then
          if |t| < h.arg || !ValidUtf8(t[..h.arg]) then Err(Malformed) else Ok(t[h.arg..])
        else if major == 4 then SkipItems(t, h.arg)
        else if major == 5 then SkipItems(t, 2 * h.arg)
        else Skip(t)
  }

  function SkipItems(s: Bytes, n: nat): (r: Decoded<Bytes>)
    ensures r.Ok? ==> |r.value| <= |s|
    decreases |s|, 1, n
  {
    if n == 0 then Ok(s)
    else
      var t :- Skip(s);
      SkipItems(t, n - 1)
  }

  function SkipToBreak(s: Bytes): (r: Decoded<Bytes>)
    ensures r.Ok? ==> |r.value| < |s|
    decreases |s|, 1, 0
  {
    if s == [] then Err(Malformed)
    else if s[0] == 0xFF then Ok(s[1..])
    else
      var t :- Skip(s);
      SkipToBreak(t)
  }

  function SkipChunks(s: Bytes, major: nat): (r: Decoded<Bytes>)
    ensures r.Ok? ==> |r.value| < |s|
    decreases |s|, 1, 0
  {
    if s == [] then Err(Malformed)
    else if s[0] == 0xFF then Ok(s[1..])
    else if !StartsWith(s, major) then Err(Malformed)
    else
      var (h, t) :- ReadHead(s);
      if |t| < h.arg || (major == 3 && !ValidUtf8(t[..h.arg])) then Err(Malformed)
      else SkipChunks(t[h.arg..], major)
  }

  /** Where strict decoding succeeds, the unchecked skip ends at the same place. */
  lemma {:induction false} SkipAgrees(s: Bytes)
    requires DecodeValue(s).Ok?
    ensures Skip(s) == Ok(DecodeValue(s).value.1)
    decreases |s|, 0, 0
  {
    var (v, t) := DecodeValue(s).value;
    match v
    case Array(items) =>
      var (n, u) := ReadCount(s, 4).value;
      SkipItemsAgree(u, n);
    case Map(entries) =>
      var (n, u) := ReadCount(s, 5).value;
      SkipEntriesAgree(u, n, First);
    case _ =>
  }

  lemma {:induction false} SkipItemsAgree(s: Bytes, n: nat)
    requires DecodeItems(s, n).Ok?
    ensures SkipItems(s, n) == Ok(DecodeItems(s, n).value.1)
    decreases |s|, 1, n
  {
    if n > 0 {
      SkipAgrees(s);
      SkipItemsAgree(DecodeValue(s).value.1, n - 1);
    }
  }

  lemma {:induction false} SkipEntriesAgree(s: Bytes, n: nat, prev: Previous)
    requires DecodeEntries(s, n, prev).Ok?
    ensures SkipItems(s, 2 * n) == Ok(DecodeEntries(s, n, prev).value.1)
    decreases |s|, 1, n
  {
    if n > 0 {
      var (e, t) := DecodeEntry(s, prev).value;
      SkipEntryAgrees(s, prev, n);
      SkipEntriesAgree(t, n - 1, After(EncodeValue(e.key)));
    }
  }

  lemma {:induction false} SkipEntryAgrees(s: Bytes, prev: Previous, n: nat)
    requires DecodeEntry(s, prev).Ok? && n > 0
    ensures SkipItems(s, 2 * n) == SkipItems(DecodeEntry(s, prev).value.1, 2 * (n - 1))
    decreases |s|, 1, 0
  {
    var t := DecodeValue(s).value.1;
    SkipAgrees(s);
    SkipAgrees(t);
    var u := DecodeValue(t).value.1;
    assert SkipItems(s, 2 * n) == SkipItems(t, 2 * n - 1);
    assert SkipItems(t, 2 * n - 1) == SkipItems(u, 2 * n - 2);
  }
}
