/**
  What the decoders refuse, and as what: heads wider than needed, indefinite
  lengths, numbers out of range, strings of the wrong length, unknown keys and
  tags, and bytes after the end.
 */
module Refusals {
  import opened Common
  import opened Cbor
  import opened CdeOrder
  import opened Value
  import opened Schema
  import opened SchemaItems
  import opened SchemaForms
  import opened SchemaSound
  import opened SchemaRoundTrip
  import opened Tables
  import opened Wire
  import opened Frames

  // --- heads -----------------------------------------------------------------------------------

  /** A head whose argument is written in `k` bytes. */
  function WideHead(major: nat, info: nat, arg: nat): Bytes
    requires major < 8 && 24 <= info <= 27
  {
    [major * 32 + info] + BigEndian(arg, ArgumentLen(info))
  }

  lemma WideHeadReads(major: nat, info: nat, arg: nat, t: Bytes)
    requires major < 8 && 24 <= info <= 27 && arg < Pow256(ArgumentLen(info))
    ensures ReadHead(WideHead(major, info, arg) + t) == Ok((Head(major, arg, 1 + ArgumentLen(info)), t))
    ensures StartsWith(WideHead(major, info, arg) + t, major)
  {
    hide BigEndian, FromBigEndian, ReadHead;
    BigEndianRoundTrip(arg, ArgumentLen(info));
    ReadsParts(major, info, BigEndian(arg, ArgumentLen(info)), t);
  }

  /** An argument that would fit a narrower head is refused as non-minimal, whatever is being read. */
  lemma NonMinimalRefused(info: nat, arg: nat, t: Bytes)
    requires 24 <= info <= 27 && arg < Pow256(ArgumentLen(info)) && MinimalHeadLen(arg) < 1 + ArgumentLen(info)
    ensures ReadUint(WideHead(0, info, arg) + t) == Err(NonMinimalHead)
    ensures arg < I64 ==> ReadInt(WideHead(1, info, arg) + t) == Err(NonMinimalHead)
    ensures |t| >= arg ==> ReadBytes(WideHead(2, info, arg) + t) == Err(NonMinimalHead)
    ensures |t| >= arg && ValidUtf8(t[..arg]) ==> ReadText(WideHead(3, info, arg) + t) == Err(NonMinimalHead)
    ensures ReadCount(WideHead(4, info, arg) + t, 4) == Err(NonMinimalHead)
    ensures ReadCount(WideHead(5, info, arg) + t, 5) == Err(NonMinimalHead)
  {
    hide WideHead, ReadHead, ValidUtf8;
    WideHeadReads(0, info, arg, t);
    WideHeadReads(1, info, arg, t);
    WideHeadReads(2, info, arg, t);
    WideHeadReads(3, info, arg, t);
    WideHeadReads(4, info, arg, t);
    WideHeadReads(5, info, arg, t);
    if arg < I64 { SignedHeadLen(-1 - arg); }
  }

  /** Arrays and maps without a count are refused as such. */
  lemma IndefiniteRefused(major: nat, t: Bytes)
    requires major == 4 || major == 5
    ensures ReadCount([major * 32 + 31] + t, major) == Err(IndefiniteLength)
  {
  }

  /** An unsigned number beyond the signed range is refused as out of range by the signed reader. */
  lemma OutOfRangeRefused(v: nat, t: Bytes)
    requires I64 <= v < U64
    ensures ReadInt(HeadBytes(0, v) + t) == Err(Constraint)
    ensures ReadLabel(true, HeadBytes(0, v) + t) == Err(Constraint)
  {
    hide ReadHead, HeadBytes;
    HeadStarts(0, v, t);
    HeadRoundTrip(0, v, t);
  }

  /** A value of another kind is refused for its kind. */
  lemma OtherKindRefused(s: Bytes, major: nat)
    requires s != [] && s[0] / 32 == major && s[0] % 32 <= 27
    ensures major != 0 ==> ReadUint(s) == Err(UnexpectedType)
    ensures major != 0 && major != 1 ==> ReadInt(s) == Err(UnexpectedType)
    ensures major != 2 ==> ReadBytes(s) == Err(UnexpectedType)
    ensures major != 3 ==> ReadText(s) == Err(UnexpectedType)
    ensures major != 4 ==> ReadCount(s, 4) == Err(Malformed)
    ensures major != 5 ==> ReadCount(s, 5) == Err(Malformed)
  {
  }

  // --- values of a table -----------------------------------------------------------------------------

  /** Byte strings of the wrong length, words that are not the expected one, and lists of the wrong length. */
  lemma WrongValueRefused(n: nat, b: Bytes, word: Bytes, text: Bytes, elems: seq<Shape>, count: nat, t: Bytes)
    requires |b| < U64 && |b| != n && TextValue(text) && text != word && count < U64 && count != |elems|
    ensures DecodeShape(SizedShape(n), BytesItem(b) + t) == Err(InvalidLength)
    ensures DecodeShape(LiteralShape(word), TextItem(text) + t) == Err(BadLiteral)
    ensures DecodeShape(TupleShape(elems), HeadBytes(4, count) + t) == Err(WrongArity)
  {
    hide ReadBytes, ReadText, ReadCount, HeadBytes, TextItem, BytesItem;
    BytesReader(b, [], t);
    TextReader(text, [], t);
    CountedReads(4, count, [], t);
    assert HeadBytes(4, count) + [] + t == HeadBytes(4, count) + t && [] + t == t;
  }

  /** A key no field has, in order, is refused as unknown by a map without an open tail. */
  lemma UnknownKeyRefused(st: Shape, l: Label, prev: Previous, t: Bytes)
    requires st.StructShape? && st.tail.Closed? && !HasField(st.fields, l) && ValidLabel(st.labels, l) && Before(prev, EncodeLabel(l))
    ensures DecodeItem(st, EncodeLabel(l) + t, prev) == Err(UnknownKey)
  {
    hide ReadLabel, EncodeLabel, ValidLabel, CdeLess;
    LabelReader(st.labels, l, [], t);
  }

  /** A key that repeats the last one, or should have come before it, is told apart. */
  lemma KeyOutOfOrderRefused(st: Shape, l: Label, last: Bytes, t: Bytes)
    requires st.StructShape? && ValidLabel(st.labels, l) && !CdeLess(last, EncodeLabel(l))
    ensures DecodeItem(st, EncodeLabel(l) + t, After(last)) == Err(if last == EncodeLabel(l) then DuplicateKey else UnsortedMapKeys)
  {
    hide ReadLabel, EncodeLabel, ValidLabel, CdeLess;
    LabelReader(st.labels, l, [], t);
  }

  // --- whole frames ---------------------------------------------------------------------------------------

  lemma {:induction false} NotFound(cases: seq<Case>, tag: Bytes)
    requires forall i :: 0 <= i < |cases| ==> cases[i].tag != tag
    ensures FindCase(cases, tag).No?
  {
    if cases != [] { NotFound(cases[1..], tag); }
  }

  /** A map whose `type` is none of the frames' is refused for it. */
  lemma UnknownTypeRefused(b: Bytes, tag: Bytes)
    requires Scan(Ascii("type"), b) == Ok(tag) && forall i :: 0 <= i < |FRAME_CASES| ==> FRAME_CASES[i].tag != tag
    ensures DecodeFrame(b) == Err(BadLiteral)
  {
    hide Scan, FRAME_CASES, Ascii, FindCase;
    NotFound(FRAME_CASES, tag);
  }

  /** A map without a `type` is refused for that. */
  lemma NoTypeRefused(b: Bytes)
    requires Scan(Ascii("type"), b) == Err(MissingField)
    ensures DecodeFrame(b) == Err(MissingField)
  {
    hide Scan, FRAME_CASES, Ascii, FindCase;
  }

  /** A frame with anything after it is refused for that. */
  lemma TrailingRefused(f: Val, t: Bytes)
    requires IsFrame(f) && t != []
    ensures DecodeFrame(Enc(FRAME, f, true) + t) == Err(TrailingBytes)
  {
    hide DecodeShape, Enc, WF, FRAME;
    FrameGood();
    ShapeRoundTrip(FRAME, f, t);
  }

  // --- outcomes -----------------------------------------------------------------------------------------------

  /** An outcome's map: the word under `result`, and the other entries. */
  function OutcomeMap(word: Bytes, extra: seq<Item>): Val {
    Record([Present(Str(word))], extra)
  }

  predicate NoCodeWord(extra: seq<Item>) {
    forall i :: 0 <= i < |extra| ==> extra[i].key != CODE
  }

  /**
    Other words than `ok` and `error`; an error without a code; a code or message
    that is not text; and an error with a third entry.
   */
  lemma OutcomeRefused(word: Bytes, extra: seq<Item>)
    ensures word != Ascii("ok") && word != Ascii("error") ==> OutcomeOf(OutcomeMap(word, extra)) == Err(BadLiteral)
    ensures NoCodeWord(extra) ==> OutcomeOf(OutcomeMap(Ascii("error"), extra)) == Err(MissingField)
    ensures HasKey(extra, CODE) && !TextSlot(Lookup(extra, CODE)) ==> OutcomeOf(OutcomeMap(Ascii("error"), extra)) == Err(Constraint)
    ensures TextSlot(Lookup(extra, CODE)) && HasKey(extra, MESSAGE) && !TextSlot(Lookup(extra, MESSAGE)) ==>
              OutcomeOf(OutcomeMap(Ascii("error"), extra)) == Err(Constraint)
    ensures TextSlot(Lookup(extra, CODE)) && (HasKey(extra, MESSAGE) ==> TextSlot(Lookup(extra, MESSAGE)))
            && (exists i :: 0 <= i < |extra| && extra[i].key != CODE && extra[i].key != MESSAGE) ==>
              OutcomeOf(OutcomeMap(Ascii("error"), extra)) == Err(UnknownKey)
  {
    WordsDiffer();
    LookupFound(extra, CODE);
    LookupFound(extra, MESSAGE);
    hide Ascii, Lookup;
    if NoCodeWord(extra) { assert !HasKey(extra, CODE); }
  }
}
