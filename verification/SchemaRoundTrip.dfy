/**
  The other half: every well-formed value, written with its maps sorted and
  followed by anything, is read back exactly, and reading stops where the
  encoding ends.
 */
module SchemaRoundTrip {
  import opened Common
  import opened Cbor
  import opened CdeOrder
  import opened Value
  import opened Schema
  import opened SchemaItems
  import opened SchemaForms
  import opened SchemaCanonical
  import opened SchemaSound

  lemma LeafShapeRoundTrip(sh: Shape, v: Val, t: Bytes)
    requires Leaf(sh) && Good(sh) && WF(sh, v)
    ensures DecodeShape(sh, Enc(sh, v, true) + t) == Ok((v, t))
  {
    hide ReadUint, ReadInt, ReadBytes, ReadText, DecodeValue, TextItem, IntBytes;
    match sh
    case UintShape => UintReader(v.i, [], t);
    case IntShape => IntReader(v.i, [], t);
    case BytesShape => BytesReader(v.bytes, [], t);
    case SizedShape(_) => BytesReader(v.bytes, [], t);
    case TextShape => TextReader(v.text, [], t);
    case EnumShape(_) => TextReader(v.text, [], t);
    case LiteralShape(x) => TextReader(x, [], t);
    case NullableBytesShape =>
      if v.Blob? {
        BytesReader(v.bytes, [], t);
        StringStarts(2, v.bytes, t);
      }
    case AnyShape => ValueRoundTrip(v.value, t);
  }

  // --- structs --------------------------------------------------------------------------

  lemma ReadItemBack(st: Shape, it: Item, sh: Shape, prev: Previous, t: Bytes)
    requires st.StructShape? && ValidLabel(st.labels, it.key) && ShapeFor(st, it.key) == Yes(sh)
    requires Before(prev, EncodeLabel(it.key)) && DecodeShape(sh, Enc(sh, it.val, true) + t) == Ok((it.val, t))
    ensures DecodeItem(st, EncItem(st, it, true) + t, prev) == Ok((it, t))
  {
    hide ReadLabel, DecodeShape, Enc, EncodeLabel, ValidLabel, ShapeFor;
    Associate(EncodeLabel(it.key), Enc(sh, it.val, true), t);
    LabelReader(st.labels, it.key, [], Enc(sh, it.val, true) + t);
  }

  lemma {:induction false} ItemRoundTrip(st: Shape, it: Item, prev: Previous, t: Bytes)
    requires st.StructShape? && GoodStruct(st) && WFItem(st, it) && Before(prev, EncodeLabel(it.key))
    ensures DecodeItem(st, EncItem(st, it, true) + t, prev) == Ok((it, t))
    decreases st, 0
  {
    hide DecodeShape, Enc, WF, GoodStruct, DecodeItem, EncItem;
    var sh := ShapeFor(st, it.key).value;
    GoodShapeFor(st, it.key);
    ShapeRoundTrip(sh, it.val, t);
    ReadItemBack(st, it, sh, prev, t);
  }

  lemma {:induction false} FieldsRoundTrip(st: Shape, items: seq<Item>, prev: Previous, t: Bytes)
    requires st.StructShape? && GoodStruct(st) && WFItems(st, items) && AscendingFrom(ITEM_KEY, prev, items)
    ensures DecodeFields(st, EncItems(st, items, true) + t, |items|, prev) == Ok((items, t))
    decreases st, 1, |items|
  {
    hide DecodeItem, EncItem, WFItem, GoodStruct;
    if items == [] {
      assert EncItems(st, items, true) + t == t;
    } else {
      var rest := EncItems(st, items[1..], true);
      Associate(EncItem(st, items[0], true), rest, t);
      ItemRoundTrip(st, items[0], prev, rest + t);
      FieldsRoundTrip(st, items[1..], After(ITEM_KEY(items[0])), t);
      assert items == [items[0]] + items[1..];
    }
  }

  lemma SortedItems(st: Shape, v: Val)
    requires st.StructShape? && GoodStruct(st) && WFRecord(st, v)
    ensures var items := Sort(ITEM_KEY, RecordItems(st, v));
            && WFItems(st, items) && AscendingFrom(ITEM_KEY, First, items) && |items| < U64
            && Assemble(st, items) == Ok(v) && (forall it :: it in items <==> it in RecordItems(st, v))
  {
    hide WFItem, RecordItems, Sort, AscendingFrom, Assemble, GoodField, GoodTail;
    var items := Sort(ITEM_KEY, RecordItems(st, v));
    SortElements(ITEM_KEY, RecordItems(st, v));
    forall i | 0 <= i < |items|
      ensures WFItem(st, items[i])
    {
      assert items[i] in RecordItems(st, v);
    }
    WFItemsLabels(st, RecordItems(st, v));
    AssembleInverts(st, v);
    AscendingIff(ITEM_KEY, items);
  }

  lemma WFItemsLabels(st: Shape, items: seq<Item>)
    requires st.StructShape? && WFItems(st, items)
    ensures ValidLabels(st.labels, items)
  {
    hide WF, ShapeFor;
    forall i | 0 <= i < |items|
      ensures ValidLabel(st.labels, items[i].key)
    {
      assert WFItem(st, items[i]);
    }
  }

  lemma StructReads(st: Shape, items: seq<Item>, v: Val, t: Bytes)
    requires st.StructShape? && |items| < U64 && Assemble(st, items) == Ok(v)
    requires DecodeFields(st, EncItems(st, items, true) + t, |items|, First) == Ok((items, t))
    ensures DecodeShape(st, EncMap(st, items, true) + t) == Ok((v, t))
    ensures ReadCount(EncMap(st, items, true) + t, 5) == Ok((|items|, EncItems(st, items, true) + t))
  {
    hide DecodeFields, EncItems, Assemble, ReadCount, HeadBytes;
    CountedReads(5, |items|, EncItems(st, items, true), t);
  }

  lemma {:induction false} StructRoundTrip(st: Shape, v: Val, t: Bytes)
    requires st.StructShape? && GoodStruct(st) && WFRecord(st, v)
    ensures DecodeShape(st, Enc(st, v, true) + t) == Ok((v, t))
    decreases st, 2
  {
    hide DecodeFields, EncItems, Assemble, Sort, WFItems, EncMap, AscendingFrom, DecodeShape, GoodStruct;
    var items := Sort(ITEM_KEY, RecordItems(st, v));
    SortedItems(st, v);
    FieldsRoundTrip(st, items, First, t);
    StructReads(st, items, v, t);
  }

  // --- unions -----------------------------------------------------------------------------

  /** The first pass over a written case finds its discriminant wherever it sorts. */
  lemma {:induction false} CaseRoundTrip(c: Shape, disc: Bytes, tag: Bytes, v: Val, t: Bytes)
    requires c.StructShape? && GoodStruct(c) && HoldsLiteral(c, disc, tag) && WFRecord(c, v)
    ensures DecodeShape(c, Enc(c, v, true) + t) == Ok((v, t)) && Scan(disc, Enc(c, v, true) + t) == Ok(tag)
    decreases c, 3
  {
    RecordParts(c, v);
    EncIsMap(c, v);
    hide *;
    var items := Sort(ITEM_KEY, RecordItems(c, v));
    SortedItems(c, v);
    FieldsRoundTrip(c, items, First, t);
    StructReads(c, items, v, t);
    ScanSettled(disc);
    ScanSees(c, disc, tag, EncItems(c, items, true) + t, |items|, First, No);
    DiscriminantWritten(c, disc, tag, v, items);
    ScanOf(disc, tag, EncMap(c, items, true) + t, items);
  }

  lemma RecordParts(st: Shape, v: Val)
    requires st.StructShape? && WFRecord(st, v)
    ensures v.Record? && |v.slots| == |st.fields|
  {
    hide WFItems;
  }

  lemma EncIsMap(st: Shape, v: Val)
    requires st.StructShape? && v.Record? && |v.slots| == |st.fields|
    ensures Enc(st, v, true) == EncMap(st, Sort(ITEM_KEY, RecordItems(st, v)), true)
  {
    hide EncMap, Sort, RecordItems;
  }

  lemma ScanSettled(disc: Bytes)
    ensures Settled(disc, First, No)
  {
  }

  /** A first pass that saw the discriminant among the entries reports it. */
  lemma ScanOf(disc: Bytes, tag: Bytes, s: Bytes, items: seq<Item>)
    requires ReadCount(s, 5).Ok? && HasKey(items, TextLabel(disc))
    requires ScanFields(disc, ReadCount(s, 5).value.1, ReadCount(s, 5).value.0, First, No) == Ok(Discriminant(disc, tag, items, No))
    ensures Scan(disc, s) == Ok(tag)
  {
    hide ReadCount, ScanFields, HasKey;
  }

  lemma DiscriminantWritten(c: Shape, disc: Bytes, tag: Bytes, v: Val, items: seq<Item>)
    requires c.StructShape? && HoldsLiteral(c, disc, tag) && WFRecord(c, v)
    requires forall it :: it in items <==> it in RecordItems(c, v)
    ensures HasKey(items, TextLabel(disc))
  {
    var i := FieldIndex(c.fields, TextLabel(disc));
    var it := Item(TextLabel(disc), v.slots[i].val);
    assert FromSlot(c.fields, v.slots, it, i);
    SlotItemsElements(c.fields, v.slots, it);
    assert it in items;
  }

  // --- the catch-all arm --------------------------------------------------------------------

  lemma FreeStepBack(disc: Bytes, it: Item, rest: Bytes, n: nat, prev: Previous, found: Opt<Bytes>, acc: seq<Item>)
    requires FreeItem(it) && Before(prev, ITEM_KEY(it)) && AllBefore(acc, prev)
    requires it.key.text == disc ==> it.val.value.Text? && found.No?
    ensures var s := EncodeLabel(it.key) + EncodeValue(it.val.value) + rest;
            && DecodeFree(s, n + 1, acc) == DecodeFree(rest, n, acc + [it])
            && ScanFields(disc, s, n + 1, prev, found)
            == ScanFields(disc, rest, n, After(ITEM_KEY(it)), if it.key.text == disc then Yes(it.val.value.text) else found)
    ensures AllBefore(acc + [it], After(ITEM_KEY(it)))
  {
    hide ReadText, DecodeValue, Skip, InsertItem, EncodeValue, TextItem, AllBefore;
    var x, v := it.key.text, it.val.value;
    Associate(TextItem(x), EncodeValue(v), rest);
    TextReader(x, [], EncodeValue(v) + rest);
    ValueRoundTrip(v, rest);
    SkipAgrees(EncodeValue(v) + rest);
    AllBeforeNext(acc, prev, it);
    InsertLast(acc, it);
    if x == disc { TextValueReads(v, rest); }
  }

  lemma FreeConsBack(disc: Bytes, it: Item, rest: seq<Item>, prev: Previous, found: Opt<Bytes>, acc: seq<Item>, t: Bytes)
    requires FreeItem(it) && Before(prev, ITEM_KEY(it)) && AllBefore(acc, prev)
    requires it.key.text == disc ==> it.val.value.Text? && found.No?
    ensures var s := EncFree([it] + rest) + t;
            var found' := if it.key.text == disc then Yes(it.val.value.text) else found;
            && DecodeFree(s, |[it] + rest|, acc) == DecodeFree(EncFree(rest) + t, |rest|, acc + [it])
            && ScanFields(disc, s, |[it] + rest|, prev, found) == ScanFields(disc, EncFree(rest) + t, |rest|, After(ITEM_KEY(it)), found')
            && SeenTag(disc, [it] + rest, found) == SeenTag(disc, rest, found')
    ensures AllBefore(acc + [it], After(ITEM_KEY(it)))
  {
    hide EncodeValue, EncodeLabel, AllBefore, CdeLess, DecodeFree, ScanFields, SeenTag, EncFree;
    EncFreeCons(it, rest);
    Associate(EncodeLabel(it.key) + EncodeValue(it.val.value), EncFree(rest), t);
    FreeStepBack(disc, it, EncFree(rest) + t, |rest|, prev, found, acc);
    SeenTagCons(disc, it, rest, found);
  }

  lemma TextValueReads(v: CborValue, t: Bytes)
    requires v.Text? && Normal(v)
    ensures ReadText(EncodeValue(v) + t) == Ok((v.text, t))
  {
    hide ReadText;
    TextReader(v.text, [], t);
  }

  predicate TagsReadable(disc: Bytes, items: seq<Item>, found: Opt<Bytes>) {
    && (forall i :: 0 <= i < |items| && items[i].key == TextLabel(disc) ==> TextSlot(Present(items[i].val)))
    && (found.Yes? ==> !HasKey(items, TextLabel(disc)))
  }

  lemma {:induction false} FreeRoundTrip(disc: Bytes, items: seq<Item>, prev: Previous, found: Opt<Bytes>, acc: seq<Item>, t: Bytes)
    requires (forall i :: 0 <= i < |items| ==> FreeItem(items[i])) && DistinctLabels(items)
    requires AscendingFrom(ITEM_KEY, prev, items) && AllBefore(acc, prev) && TagsReadable(disc, items, found)
    ensures DecodeFree(EncFree(items) + t, |items|, acc) == Ok((acc + items, t))
    ensures ScanFields(disc, EncFree(items) + t, |items|, prev, found) == Ok(SeenTag(disc, items, found))
    decreases |items|
  {
    hide FreeItem, EncodeLabel, AllBefore, CdeLess, DecodeFree, ScanFields, SeenTag, EncFree, TagsReadable, AscendingFrom, DistinctLabels;
    if items == [] {
      FreeBase(disc, prev, found, acc, t);
    } else {
      AscendingTail(prev, items);
      var it, rest := items[0], items[1..];
      assert items == [it] + rest;
      FreeItemParts(it);
      TagsReadableNext(disc, items, found);
      FreeConsBack(disc, it, rest, prev, found, acc, t);
      var found' := if it.key.text == disc then Yes(it.val.value.text) else found;
      FreeRoundTrip(disc, rest, After(ITEM_KEY(it)), found', acc + [it], t);
      assert acc + items == (acc + [it]) + rest;
    }
  }

  lemma FreeBase(disc: Bytes, prev: Previous, found: Opt<Bytes>, acc: seq<Item>, t: Bytes)
    ensures DecodeFree(EncFree([]) + t, 0, acc) == Ok((acc + [], t))
    ensures ScanFields(disc, EncFree([]) + t, 0, prev, found) == Ok(SeenTag(disc, [], found))
  {
    assert acc + [] == acc && EncFree([]) + t == t;
  }

  lemma AscendingTail(prev: Previous, items: seq<Item>)
    requires items != [] && AscendingFrom(ITEM_KEY, prev, items)
    ensures Before(prev, ITEM_KEY(items[0])) && AscendingFrom(ITEM_KEY, After(ITEM_KEY(items[0])), items[1..])
  {
  }

  lemma FreeItemParts(it: Item)
    requires FreeItem(it)
    ensures it.key.TextLabel? && it.val.Any?
  {
  }

  lemma TagsReadableNext(disc: Bytes, items: seq<Item>, found: Opt<Bytes>)
    requires items != [] && items[0].key.TextLabel? && items[0].val.Any? && DistinctLabels(items)
    requires TagsReadable(disc, items, found)
    ensures items[0].key.text == disc ==> items[0].val.value.Text? && found.No?
    ensures DistinctLabels(items[1..])
    ensures TagsReadable(disc, items[1..], if items[0].key.text == disc then Yes(items[0].val.value.text) else found)
  {
    var it, rest := items[0], items[1..];
    if it.key.text == disc {
      assert HasKey(items, TextLabel(disc));
      assert TextSlot(Present(it.val));
    }
    assert HasKey(rest, TextLabel(disc)) ==> HasKey(items, TextLabel(disc)) by { HasKeyCons(it, rest, TextLabel(disc)); assert items == [it] + rest; }
  }

  lemma {:induction false} SeenTagIs(disc: Bytes, items: seq<Item>, found: Opt<Bytes>)
    requires TagsReadable(disc, items, found) && DistinctLabels(items)
    requires forall i :: 0 <= i < |items| ==> items[i].key.TextLabel? && items[i].val.Any?
    ensures var slot := Lookup(items, TextLabel(disc));
            if HasKey(items, TextLabel(disc)) then TextSlot(slot) && SeenTag(disc, items, found) == Yes(slot.val.value.text)
            else SeenTag(disc, items, found) == found
  {
    if items != [] {
      TagsReadableNext(disc, items, found);
      var rest := items[1..];
      SeenTagIs(disc, rest, if items[0].key.text == disc then Yes(items[0].val.value.text) else found);
      assert items == [items[0]] + rest;
      HasKeyCons(items[0], rest, TextLabel(disc));
    }
  }

  lemma FreeShapeRoundTrip(sh: Shape, v: Val, t: Bytes)
    requires sh.UnionShape? && v.Free? && WF(sh, v)
    ensures DecodeShape(sh, Enc(sh, v, true) + t) == Ok((v, t))
  {
    hide DecodeFree, ScanFields, EncFree, FreeItem, ReadCount, Lookup, SeenTag, AscendingFrom, HasKey, HeadBytes;
    var items := v.entries;
    var l := TextLabel(sh.disc);
    AscendingIff(ITEM_KEY, items);
    AscendingLabels(items);
    LookupFound(items, l);
    FreeTagReadable(sh.disc, items);
    FreeRoundTrip(sh.disc, items, First, No, [], t);
    assert [] + items == items;
    SeenTagIs(sh.disc, items, No);
    CountedReads(5, |items|, EncFree(items), t);
  }

  lemma FreeTagReadable(disc: Bytes, items: seq<Item>)
    requires DistinctLabels(items) && TextSlot(Lookup(items, TextLabel(disc)))
    requires forall i :: 0 <= i < |items| ==> FreeItem(items[i])
    ensures TagsReadable(disc, items, No)
    ensures forall i :: 0 <= i < |items| ==> items[i].key.TextLabel? && items[i].val.Any?
  {
    forall i | 0 <= i < |items| && items[i].key == TextLabel(disc)
      ensures TextSlot(Present(items[i].val))
    {
      LookupIs(items, items[i]);
    }
  }

  // --- outcomes --------------------------------------------------------------------------------

  /** The map an outcome is written as, as the record its decoder assembles. */
  function OutcomeRecord(o: Val): Val {
    match o
    case Okay(results) => Record([Present(Str(Ascii("ok")))], results)
    case Failed(code, message) =>
      Record([Present(Str(Ascii("error")))], [Item(CODE, Any(Text(code)))] + MessageItems(message))
    case _ => Unit
  }

  lemma OutcomeRecordReads(o: Val)
    requires WFOutcome(o)
    ensures OutcomeOf(OutcomeRecord(o)) == Ok(o)
  {
    WordsDiffer();
    CodeIsNotMessage();
    if o.Failed? {
      hide Ascii, Lookup;
      var extra := OutcomeRecord(o).extra;
      LookupTwo(o.code, o.message);
      forall i | 0 <= i < |extra|
        ensures extra[i].key == CODE || extra[i].key == MESSAGE
      {
      }
    }
  }

  lemma WordsDiffer()
    ensures Ascii("ok") != Ascii("error")
  {
    assert |Ascii("ok")| == 2 && |Ascii("error")| == 5;
  }

  lemma LookupTwo(code: Bytes, message: Slot)
    requires message.Present? ==> message.val.Str?
    ensures var extra := [Item(CODE, Any(Text(code)))] + MessageItems(message);
            && Lookup(extra, CODE) == Present(Any(Text(code)))
            && Lookup(extra, MESSAGE) == (if message.Absent? then Absent else Present(Any(Text(message.val.text))))
  {
    CodeIsNotMessage();
    hide Ascii;
    var a, b := Item(CODE, Any(Text(code))), MessageItems(message);
    assert ([a] + b)[1..] == b;
  }

  lemma OutcomeRecordFormed(o: Val)
    requires WFOutcome(o)
    ensures OutcomeRecord(o).Record? && |OutcomeRecord(o).slots| == 1 && WFRecord(OUTCOME, OutcomeRecord(o))
    ensures Sort(ITEM_KEY, RecordItems(OUTCOME, OutcomeRecord(o))) == Sort(ITEM_KEY, OutcomeItems(o))
  {
    OutcomeKeys();
    OutcomeWords();
    hide Ascii, ValidUtf8;
    var v := OutcomeRecord(o);
    assert OUTCOME.fields[1..] == [];
    assert SlotItems(OUTCOME.fields, v.slots) == [Item(RESULT, v.slots[0].val)];
    OutcomeExtra(o);
    OutcomeFormed(v);
    if o.Failed? {
      RecordKeys(v);
      FailedDistinct(o.code, o.message);
      SortIs(ITEM_KEY, RecordItems(OUTCOME, v), OutcomeItems(o));
      SortFixed(ITEM_KEY, OutcomeItems(o));
    }
  }

  lemma OutcomeWords()
    ensures TextValue(Ascii("ok")) && TextValue(Ascii("error"))
  {
    AsciiText("ok");
    AsciiText("error");
  }

  lemma OutcomeExtra(o: Val)
    requires WFOutcome(o)
    ensures var extra := OutcomeRecord(o).extra;
            && |extra| + 1 < U64 && Ascending(ITEM_KEY, extra)
            && forall i :: 0 <= i < |extra| ==> FreeItem(extra[i]) && extra[i].key != RESULT
  {
    OutcomeKeys();
  }

  lemma OutcomeFormed(v: Val)
    requires v.Record? && |v.slots| == 1 && v.slots[0].Present? && v.slots[0].val.Str? && TextValue(v.slots[0].val.text)
    requires |v.extra| + 1 < U64 && Ascending(ITEM_KEY, v.extra) && TextValue(RESULT.text)
    requires forall i :: 0 <= i < |v.extra| ==> FreeItem(v.extra[i]) && v.extra[i].key != RESULT
    ensures WFRecord(OUTCOME, v)
  {
    hide Ascii, ValidUtf8, Ascending;
    assert OUTCOME.fields[1..] == [];
    assert SlotItems(OUTCOME.fields, v.slots) == [Item(RESULT, v.slots[0].val)];
    var items := RecordItems(OUTCOME, v);
    forall i | 0 <= i < |items|
      ensures WFItem(OUTCOME, items[i])
    {
      if i > 0 { assert items[i] == v.extra[i - 1]; }
    }
  }

  lemma {:induction false} OutcomeRoundTrip(o: Val, t: Bytes)
    requires WFOutcome(o)
    ensures DecodeShape(OutcomeShape(OUTCOME), Enc(OutcomeShape(OUTCOME), o, true) + t) == Ok((o, t))
    decreases OutcomeShape(OUTCOME), 2
  {
    hide DecodeFields, EncItems, Assemble, Sort, WFItems, EncMap, AscendingFrom, GoodStruct, WFOutcome, WFRecord, OutcomeOf,
         RecordItems, OutcomeItems, OutcomeRecord, ReadCount;
    OutcomeGood();
    OutcomeRecordFormed(o);
    OutcomeRecordReads(o);
    var v := OutcomeRecord(o);
    var items := Sort(ITEM_KEY, RecordItems(OUTCOME, v));
    SortedItems(OUTCOME, v);
    FieldsRoundTrip(OUTCOME, items, First, t);
    StructReads(OUTCOME, items, v, t);
  }

  // --- the theorem ------------------------------------------------------------------------------------

  /** Decoding a sorted encoding returns the value and stops exactly at what follows. */
  lemma {:induction false} ShapeRoundTrip(sh: Shape, v: Val, t: Bytes)
    requires Good(sh) && WF(sh, v)
    ensures DecodeShape(sh, Enc(sh, v, true) + t) == Ok((v, t))
    decreases sh, 4
  {
    match sh
    case ListShape(elem) => ListShapeRoundTrip(sh, v, t);
    case TupleShape(elems) => TupleShapeRoundTrip(sh, v, t);
    case StructShape(_, _, _) => StructRoundTrip(sh, v, t);
    case UnionShape(disc, cases, open) =>
      if v.Tagged? {
        var c := FindCase(cases, v.tag).value;
        CaseSmaller(sh, c, v.tag);
        FoundCaseGood(disc, cases, v.tag);
        CaseRoundTrip(c, disc, v.tag, v.body, t);
      } else {
        FreeShapeRoundTrip(sh, v, t);
      }
    case OutcomeShape(st) => OutcomeRoundTrip(v, t);
    case _ => LeafShapeRoundTrip(sh, v, t);
  }

  lemma {:induction false} ListShapeRoundTrip(sh: Shape, v: Val, t: Bytes)
    requires sh.ListShape? && Good(sh.elem) && WF(sh, v)
    ensures DecodeShape(sh, Enc(sh, v, true) + t) == Ok((v, t))
    decreases sh, 3
  {
    hide ReadCount, EncList, DecodeList, Good;
    CountedReads(4, |v.items|, EncList(sh.elem, v.items, true), t);
    ListRoundTrip(sh.elem, v.items, t);
  }

  lemma {:induction false} ListRoundTrip(elem: Shape, vs: seq<Val>, t: Bytes)
    requires Good(elem) && forall i :: 0 <= i < |vs| ==> WF(elem, vs[i])
    ensures DecodeList(elem, EncList(elem, vs, true) + t, |vs|) == Ok((vs, t))
    decreases elem, 5, |vs|
  {
    hide DecodeShape, WF, Enc, Good;
    if vs == [] {
      assert EncList(elem, vs, true) + t == t;
    } else {
      var rest := EncList(elem, vs[1..], true);
      Associate(Enc(elem, vs[0], true), rest, t);
      ShapeRoundTrip(elem, vs[0], rest + t);
      ListRoundTrip(elem, vs[1..], t);
      assert vs == [vs[0]] + vs[1..];
    }
  }

  lemma {:induction false} TupleShapeRoundTrip(sh: Shape, v: Val, t: Bytes)
    requires sh.TupleShape? && WF(sh, v) && forall i :: 0 <= i < |sh.elems| ==> Good(sh.elems[i])
    ensures DecodeShape(sh, Enc(sh, v, true) + t) == Ok((v, t))
    decreases sh, 3
  {
    hide ReadCount, EncTuple, DecodeTuple, Good;
    CountedReads(4, |v.items|, EncTuple(sh.elems, v.items, true), t);
    TupleRoundTrip(sh.elems, v.items, t);
  }

  lemma {:induction false} TupleRoundTrip(elems: seq<Shape>, vs: seq<Val>, t: Bytes)
    requires |elems| == |vs| && forall i :: 0 <= i < |elems| ==> Good(elems[i]) && WF(elems[i], vs[i])
    ensures DecodeTuple(elems, EncTuple(elems, vs, true) + t) == Ok((vs, t))
    decreases elems, 5
  {
    hide DecodeShape, WF, Enc, Good;
    if elems == [] {
      assert EncTuple(elems, vs, true) + t == t;
    } else {
      var rest := EncTuple(elems[1..], vs[1..], true);
      Associate(Enc(elems[0], vs[0], true), rest, t);
      ShapeRoundTrip(elems[0], vs[0], rest + t);
      TupleRoundTrip(elems[1..], vs[1..], t);
      assert vs == [vs[0]] + vs[1..];
    }
  }
}
