/**
  Every byte string a table-driven decoder accepts is the sorted encoding of
  the value it returns, through nested maps, open tails and both kinds of
  two-pass dispatch.
 */
module SchemaSound {
  import opened Common
  import opened Cbor
  import opened CdeOrder
  import opened Value
  import opened Schema
  import opened SchemaItems
  import opened SchemaForms
  import opened SchemaCanonical

  predicate Leaf(sh: Shape) {
    !(sh.ListShape? || sh.TupleShape? || sh.StructShape? || sh.UnionShape? || sh.OutcomeShape?)
  }

  lemma LeafSound(sh: Shape, s: Bytes)
    requires Leaf(sh) && Good(sh) && DecodeShape(sh, s).Ok?
    ensures var (v, t) := DecodeShape(sh, s).value;
            WF(sh, v) && s == Enc(sh, v, true) + t
  {
    hide ReadUint, ReadInt, ReadBytes, ReadText, DecodeValue, BytesItem, TextItem, IntBytes;
    var t := DecodeShape(sh, s).value.1;
    match sh
    case UintShape => UintRange(s); UintReader(ReadUint(s).value.0, s, t);
    case IntShape => IntRange(s); IntReader(ReadInt(s).value.0, s, t);
    case BytesShape => BytesRange(s); BytesReader(ReadBytes(s).value.0, s, t);
    case SizedShape(_) => BytesRange(s); BytesReader(ReadBytes(s).value.0, s, t);
    case TextShape => TextRange(s); TextReader(ReadText(s).value.0, s, t);
    case EnumShape(_) => TextRange(s); TextReader(ReadText(s).value.0, s, t);
    case LiteralShape(_) => TextRange(s); TextReader(ReadText(s).value.0, s, t);
    case NullableBytesShape =>
      if s[0] == 0xF6 {
        assert s == [s[0]] + s[1..];
      } else {
        BytesRange(s);
        BytesReader(ReadBytes(s).value.0, s, t);
      }
    case AnyShape => ValueCanonical(s);
  }

  // --- structs --------------------------------------------------------------------------------

  lemma ReadItemSound(st: Shape, s: Bytes, l: Label, t: Bytes, v: Val, u: Bytes)
    requires st.StructShape? && ReadLabel(st.labels, s) == Ok((l, t)) && ShapeFor(st, l).Yes?
    requires WF(ShapeFor(st, l).value, v) && t == Enc(ShapeFor(st, l).value, v, true) + u
    ensures WFItem(st, Item(l, v)) && s == EncItem(st, Item(l, v), true) + u
  {
    hide WF, Enc, ReadLabel, EncodeLabel;
    LabelRange(st.labels, s);
    LabelReader(st.labels, l, s, t);
    Associate(EncodeLabel(l), Enc(ShapeFor(st, l).value, v, true), u);
  }

  lemma {:induction false} ItemSound(st: Shape, s: Bytes, prev: Previous)
    requires st.StructShape? && GoodStruct(st) && DecodeItem(st, s, prev).Ok?
    ensures var (it, t) := DecodeItem(st, s, prev).value;
            WFItem(st, it) && s == EncItem(st, it, true) + t
    decreases |s|, st, 1
  {
    hide WF, Enc, DecodeItem, DecodeShape, GoodStruct, Good, EncItem, WFItem;
    ItemStep(st, s, prev);
    var (it, u) := DecodeItem(st, s, prev).value;
    var (l, t) := ReadLabel(st.labels, s).value;
    GoodShapeFor(st, l);
    ShapeSound(ShapeFor(st, l).value, t);
    ReadItemSound(st, s, l, t, it.val, u);
  }

  lemma {:induction false} FieldsSound(st: Shape, s: Bytes, n: nat, prev: Previous)
    requires st.StructShape? && GoodStruct(st) && DecodeFields(st, s, n, prev).Ok?
    ensures var (items, t) := DecodeFields(st, s, n, prev).value;
            WFItems(st, items) && s == EncItems(st, items, true) + t
    decreases |s|, st, 2
  {
    hide DecodeItem, GoodStruct, EncItem, WFItem;
    if n > 0 {
      FieldsStep(st, s, n, prev);
      var (it, t) := DecodeItem(st, s, prev).value;
      ItemSound(st, s, prev);
      FieldsSound(st, t, n - 1, After(EncodeLabel(it.key)));
      var (items, u) := DecodeFields(st, t, n - 1, After(EncodeLabel(it.key))).value;
      EncItemsCons(st, it, items, true);
      Associate(EncItem(st, it, true), EncItems(st, items, true), u);
    }
  }

  lemma EncItemsCons(st: Shape, it: Item, items: seq<Item>, canon: bool)
    requires st.StructShape?
    ensures EncItems(st, [it] + items, canon) == EncItem(st, it, canon) + EncItems(st, items, canon)
  {
    assert ([it] + items)[1..] == items;
  }

  predicate ImpliedPresent(st: Shape, items: seq<Item>)
    requires st.StructShape?
  {
    forall i :: 0 <= i < |st.fields| && st.fields[i].presence.Implied? ==> HasKey(items, st.fields[i].key)
  }

  /** What a struct decoder returns, once its entries are known to be the written ones. */
  lemma StructSound(st: Shape, s: Bytes, items: seq<Item>, u: Bytes, v: Val)
    requires st.StructShape? && DistinctFields(st.fields) && ReadCount(s, 5).Ok?
    requires ReadCount(s, 5).value.0 == |items| && ReadCount(s, 5).value.1 == EncItems(st, items, true) + u
    requires WFItems(st, items) && AscendingFrom(ITEM_KEY, First, items)
    requires Assemble(st, items) == Ok(v) && ImpliedPresent(st, items)
    ensures v.Record? && |v.slots| == |st.fields| && WFRecord(st, v)
    ensures s == EncMap(st, items, true) + u && Sort(ITEM_KEY, RecordItems(st, v)) == items
  {
    hide ReadCount, EncItems, EncItem, WF, AscendingFrom, Sort, SlotItems, Rest;
    AscendingIff(ITEM_KEY, items);
    AssembleKeeps(st, items, v);
    CountedCanonical(5, s, EncItems(st, items, true), u);
    RestElements(st.fields, items);
    RestAscending(st.fields, items);
    SortElements(ITEM_KEY, RecordItems(st, v));
    assert WFItems(st, RecordItems(st, v)) by {
      forall i | 0 <= i < |RecordItems(st, v)|
        ensures WFItem(st, RecordItems(st, v)[i])
      {
        assert RecordItems(st, v)[i] in items;
      }
    }
  }

  lemma {:induction false} StructShapeSound(st: Shape, s: Bytes)
    requires st.StructShape? && GoodStruct(st) && DecodeShape(st, s).Ok?
    requires ImpliedPresent(st, DecodeFields(st, ReadCount(s, 5).value.1, ReadCount(s, 5).value.0, First).value.0)
    ensures var (v, t) := DecodeShape(st, s).value;
            WF(st, v) && s == Enc(st, v, true) + t
    decreases |s|, st, 3
  {
    hide ReadCount, EncItems, WFItems, AscendingFrom, DecodeFields, Assemble, WFRecord, EncMap, ImpliedPresent, Sort;
    var (n, t) := ReadCount(s, 5).value;
    var (items, u) := DecodeFields(st, t, n, First).value;
    FieldsSound(st, t, n, First);
    FieldsAscend(st, t, n, First);
    StructSound(st, s, items, u, DecodeShape(st, s).value.0);
  }

  // --- the catch-all arm of a union ------------------------------------------------------------------

  lemma {:induction false} InsertLast(acc: seq<Item>, it: Item)
    requires forall i :: 0 <= i < |acc| ==> CdeLess(ITEM_KEY(acc[i]), ITEM_KEY(it))
    ensures InsertItem(acc, it) == Ok(acc + [it])
  {
    InsertAtEnd(ITEM_KEY, it, acc);
    forall i | 0 <= i < |acc|
      ensures ITEM_KEY(acc[i]) != ITEM_KEY(it)
    {
      CdeTrichotomy(ITEM_KEY(it), ITEM_KEY(it));
    }
  }

  predicate AllBefore(acc: seq<Item>, prev: Previous) {
    && (acc != [] ==> prev.After?)
    && forall i :: 0 <= i < |acc| ==> ITEM_KEY(acc[i]) == prev.key || CdeLess(ITEM_KEY(acc[i]), prev.key)
  }

  lemma AllBeforeNext(acc: seq<Item>, prev: Previous, it: Item)
    requires AllBefore(acc, prev) && Before(prev, ITEM_KEY(it))
    ensures forall i :: 0 <= i < |acc| ==> CdeLess(ITEM_KEY(acc[i]), ITEM_KEY(it))
    ensures AllBefore(acc + [it], After(ITEM_KEY(it)))
  {
    forall i | 0 <= i < |acc|
      ensures CdeLess(ITEM_KEY(acc[i]), ITEM_KEY(it))
    {
      if ITEM_KEY(acc[i]) != prev.key { CdeTransitive(ITEM_KEY(acc[i]), prev.key, ITEM_KEY(it)); }
    }
  }

  /** What one step of the two passes over an untyped map read. */
  lemma FreeStep(disc: Bytes, s: Bytes, n: nat, prev: Previous, found: Opt<Bytes>, acc: seq<Item>)
    requires n > 0 && ScanFields(disc, s, n, prev, found).Ok? && DecodeFree(s, n, acc).Ok? && AllBefore(acc, prev)
    ensures ReadText(s).Ok? && DecodeValue(ReadText(s).value.1).Ok?
    ensures var (x, t) := ReadText(s).value;
            var (v, u) := DecodeValue(t).value;
            var it := Item(TextLabel(x), Any(v));
            && FreeItem(it) && s == EncodeLabel(it.key) + EncodeValue(v) + u
            && Before(prev, ITEM_KEY(it)) && AllBefore(acc + [it], After(ITEM_KEY(it)))
            && DecodeFree(s, n, acc) == DecodeFree(u, n - 1, acc + [it])
            && (x == disc ==> v.Text? && found.No?)
            && ScanFields(disc, s, n, prev, found)
            == ScanFields(disc, u, n - 1, After(ITEM_KEY(it)), if x == disc then Yes(v.text) else found)
  {
    hide ReadText, DecodeValue, Skip, InsertItem, EncodeValue, TextItem, AllBefore;
    var (x, t) := ReadText(s).value;
    var (v, u) := DecodeValue(t).value;
    var it := Item(TextLabel(x), Any(v));
    TextRange(s);
    TextReader(x, s, t);
    ValueCanonical(t);
    Associate(TextItem(x), EncodeValue(v), u);
    AllBeforeNext(acc, prev, it);
    InsertLast(acc, it);
    SkipAgrees(t);
    if x == disc { TextIsValue(t); }
  }

  lemma TextIsValue(s: Bytes)
    requires ReadText(s).Ok?
    ensures DecodeValue(s) == Ok((Text(ReadText(s).value.0), ReadText(s).value.1))
  {
  }

  /** What both passes over an untyped map say about its entries. */
  ghost predicate ReadsFree(disc: Bytes, s: Bytes, n: nat, prev: Previous, found: Opt<Bytes>, acc: seq<Item>, items: seq<Item>) {
    && ScanFields(disc, s, n, prev, found) == Ok(SeenTag(disc, items, found))
    && DecodeFree(s, n, acc).Ok? && |items| == n && DecodeFree(s, n, acc).value.0 == acc + items
    && s == EncFree(items) + DecodeFree(s, n, acc).value.1
    && (forall i :: 0 <= i < |items| ==> FreeItem(items[i]))
    && AscendingFrom(ITEM_KEY, prev, items)
  }

  lemma ReadsNone(disc: Bytes, s: Bytes, prev: Previous, found: Opt<Bytes>, acc: seq<Item>)
    ensures ReadsFree(disc, s, 0, prev, found, acc, [])
  {
    assert acc + [] == acc && EncFree([]) + s == s;
  }

  lemma ReadsCons(disc: Bytes, s: Bytes, n: nat, prev: Previous, found: Opt<Bytes>, acc: seq<Item>, it: Item, u: Bytes, rest: seq<Item>)
    requires n > 0 && FreeItem(it) && Before(prev, ITEM_KEY(it)) && s == EncodeLabel(it.key) + EncodeValue(it.val.value) + u
    requires it.key.text == disc ==> it.val.value.Text?
    requires DecodeFree(s, n, acc) == DecodeFree(u, n - 1, acc + [it])
    requires var found' := if it.key.text == disc then Yes(it.val.value.text) else found;
             && ScanFields(disc, s, n, prev, found) == ScanFields(disc, u, n - 1, After(ITEM_KEY(it)), found')
             && ReadsFree(disc, u, n - 1, After(ITEM_KEY(it)), found', acc + [it], rest)
    ensures ReadsFree(disc, s, n, prev, found, acc, [it] + rest)
  {
    hide ScanFields, DecodeFree, EncFree, AscendingFrom, SeenTag, EncodeLabel, EncodeValue, Normal, ValidUtf8;
    assert acc + ([it] + rest) == (acc + [it]) + rest;
    EncFreeCons(it, rest);
    AscendingCons(prev, it, rest);
    SeenTagCons(disc, it, rest, found);
    Associate(EncodeLabel(it.key) + EncodeValue(it.val.value), EncFree(rest), DecodeFree(s, n, acc).value.1);
  }

  /**
    The untyped second pass does not check key order, but the first pass did on
    the same bytes: it reads ascending entries, and their encoding is the input.
   */
  lemma {:induction false} FreeSound(disc: Bytes, s: Bytes, n: nat, prev: Previous, found: Opt<Bytes>, acc: seq<Item>)
    returns (items: seq<Item>)
    requires ScanFields(disc, s, n, prev, found).Ok? && DecodeFree(s, n, acc).Ok? && AllBefore(acc, prev)
    ensures ReadsFree(disc, s, n, prev, found, acc, items)
    decreases n
  {
    hide *;
    if n == 0 {
      items := [];
      ReadsNone(disc, s, prev, found, acc);
    } else {
      FreeStep(disc, s, n, prev, found, acc);
      var (x, t) := ReadText(s).value;
      var (v, u) := DecodeValue(t).value;
      var it := Item(TextLabel(x), Any(v));
      var rest := FreeSound(disc, u, n - 1, After(ITEM_KEY(it)), if x == disc then Yes(v.text) else found, acc + [it]);
      items := [it] + rest;
      ReadsCons(disc, s, n, prev, found, acc, it, u, rest);
    }
  }

  /** The discriminant a pass over untyped entries ends with. */
  function SeenTag(disc: Bytes, items: seq<Item>, found: Opt<Bytes>): Opt<Bytes> {
    if items == [] then found
    else
      var it := items[0];
      SeenTag(disc, items[1..], if it.key == TextLabel(disc) && TextSlot(Present(it.val)) then Yes(it.val.value.text) else found)
  }

  lemma SeenTagCons(disc: Bytes, it: Item, rest: seq<Item>, found: Opt<Bytes>)
    ensures SeenTag(disc, [it] + rest, found) ==
            SeenTag(disc, rest, if it.key == TextLabel(disc) && TextSlot(Present(it.val)) then Yes(it.val.value.text) else found)
  {
    assert ([it] + rest)[1..] == rest;
  }

  lemma EncFreeCons(it: Item, rest: seq<Item>)
    requires it.val.Any?
    ensures EncFree([it] + rest) == EncodeLabel(it.key) + EncodeValue(it.val.value) + EncFree(rest)
  {
    assert ([it] + rest)[1..] == rest;
  }

  lemma {:induction false} SeenTagOccurs(disc: Bytes, items: seq<Item>, found: Opt<Bytes>)
    requires SeenTag(disc, items, found).Yes?
    ensures found == SeenTag(disc, items, found) || Item(TextLabel(disc), Any(Text(SeenTag(disc, items, found).value))) in items
  {
    if items != [] {
      var it := items[0];
      var found' := if it.key == TextLabel(disc) && TextSlot(Present(it.val)) then Yes(it.val.value.text) else found;
      SeenTagOccurs(disc, items[1..], found');
    }
  }

  // --- outcomes -----------------------------------------------------------------------------------------

  lemma AsciiText(name: string)
    requires |name| < U64
    ensures TextValue(Ascii(name))
  {
    AsciiIsValid(Ascii(name));
  }

  lemma OutcomeGood()
    ensures GoodStruct(OUTCOME) && NoImplied(OUTCOME.fields)
  {
    hide ValidUtf8, Ascii;
    ResultKey();
    OneFieldGood(RESULT);
  }

  lemma ResultKey()
    ensures TextValue(RESULT.text)
  {
    AsciiText("result");
  }

  lemma OneFieldGood(l: Label)
    requires ValidLabel(false, l)
    ensures var st := StructShape([Field(l, TextShape, Required)], Open(AnyShape), false);
            GoodStruct(st) && NoImplied(st.fields)
  {
    hide ValidLabel;
    var f := Field(l, TextShape, Required);
    assert GoodField(false, f);
  }

  lemma OutcomeKeys()
    ensures CODE != MESSAGE && CODE != RESULT && MESSAGE != RESULT
    ensures TextValue(CODE.text) && TextValue(MESSAGE.text) && TextValue(RESULT.text)
    ensures CdeLess(EncodeLabel(CODE), EncodeLabel(RESULT)) && CdeLess(EncodeLabel(RESULT), EncodeLabel(MESSAGE))
    ensures CdeLess(EncodeLabel(CODE), EncodeLabel(MESSAGE))
  {
    AsciiText("code");
    AsciiText("message");
    AsciiText("result");
    assert |EncodeLabel(CODE)| == 5 && |EncodeLabel(RESULT)| == 7 && |EncodeLabel(MESSAGE)| == 8;
  }

  lemma OutcomeRecordItems(v: Val)
    requires WFRecord(OUTCOME, v)
    ensures |v.slots| == 1 && v.slots[0].Present? && v.slots[0].val.Str?
    ensures RecordItems(OUTCOME, v) == [Item(RESULT, v.slots[0].val)] + v.extra
    ensures forall i :: 0 <= i < |v.extra| ==> FreeItem(v.extra[i]) && v.extra[i].key != RESULT
    ensures Ascending(ITEM_KEY, v.extra) && |v.extra| + 1 < U64
  {
    assert OUTCOME.fields[1..] == [];
    assert SlotItems(OUTCOME.fields, v.slots) == [Item(RESULT, v.slots[0].val)];
    assert WFItem(OUTCOME, RecordItems(OUTCOME, v)[0]);
    forall i | 0 <= i < |v.extra|
      ensures FreeItem(v.extra[i]) && v.extra[i].key != RESULT
    {
      assert v.extra[i] == RecordItems(OUTCOME, v)[i + 1];
      assert WFItem(OUTCOME, v.extra[i]);
    }
  }

  lemma CodeIsNotMessage()
    ensures CODE != MESSAGE
  {
    assert |CODE.text| == 4 && |MESSAGE.text| == 7;
  }

  /** The two keys an error outcome may carry, and nothing else. */
  lemma FailedExtra(extra: seq<Item>, it: Item)
    requires Ascending(ITEM_KEY, extra)
    requires forall i :: 0 <= i < |extra| ==> FreeItem(extra[i]) && (extra[i].key == CODE || extra[i].key == MESSAGE)
    requires TextSlot(Lookup(extra, CODE))
    requires Lookup(extra, MESSAGE).Absent? || TextSlot(Lookup(extra, MESSAGE))
    ensures TextValue(Lookup(extra, CODE).val.value.text)
    ensures TextSlot(Lookup(extra, MESSAGE)) ==> TextValue(Lookup(extra, MESSAGE).val.value.text)
    ensures it in extra <==>
            || it == Item(CODE, Lookup(extra, CODE).val)
            || it in MessageItems(MessageOf(Lookup(extra, MESSAGE)))
  {
    hide ValidUtf8, Ascii, Lookup, Ascending, EncodeLabel, HasKey;
    CodeIsNotMessage();
    AscendingLabels(extra);
    LookupFound(extra, CODE);
    LookupFound(extra, MESSAGE);
    if it in extra {
      LookupIs(extra, it);
    }
  }

  lemma FailedDistinct(code: Bytes, message: Slot)
    ensures DistinctKeys(ITEM_KEY, OutcomeItems(Failed(code, message)))
    ensures Ascending(ITEM_KEY, OutcomeItems(Failed(code, message)))
  {
    OutcomeKeys();
    AscendingDistinct(ITEM_KEY, OutcomeItems(Failed(code, message)));
  }

  /** Reading an outcome back from its map loses nothing. */
  lemma OutcomeKept(v: Val, o: Val)
    requires WFRecord(OUTCOME, v) && OutcomeOf(v) == Ok(o)
    ensures WFOutcome(o) && Sort(ITEM_KEY, OutcomeItems(o)) == Sort(ITEM_KEY, RecordItems(OUTCOME, v))
  {
    hide ValidUtf8, Ascii, Lookup, Ascending, EncodeLabel, HasKey, WFRecord, RecordItems, DistinctKeys, Sort, FreeItem, MessageItems;
    OutcomeRecordItems(v);
    if o.Failed? {
      forall it
        ensures it in OutcomeItems(o) <==> it in RecordItems(OUTCOME, v)
      {
        FailedExtra(v.extra, it);
      }
      FailedExtra(v.extra, Item(RESULT, Unit));
      FailedDistinct(o.code, o.message);
      RecordKeys(v);
      SortFixed(ITEM_KEY, OutcomeItems(o));
      SortIs(ITEM_KEY, RecordItems(OUTCOME, v), OutcomeItems(o));
    }
  }

  lemma RecordKeys(v: Val)
    requires WFRecord(OUTCOME, v)
    ensures DistinctKeys(ITEM_KEY, RecordItems(OUTCOME, v))
  {
    AscendingLabels(v.extra);
    RecordDistinct(OUTCOME, v);
    assert ValidLabels(false, RecordItems(OUTCOME, v)) by {
      forall i | 0 <= i < |RecordItems(OUTCOME, v)|
        ensures ValidLabel(false, RecordItems(OUTCOME, v)[i].key)
      {
        assert WFItem(OUTCOME, RecordItems(OUTCOME, v)[i]);
      }
    }
    DistinctLabelsKeys(false, RecordItems(OUTCOME, v));
  }

  // --- the theorem ------------------------------------------------------------------------------------

  /** Every accepted input is the sorted encoding of the value read, and the value is well formed. */
  lemma {:induction false} ShapeSound(sh: Shape, s: Bytes)
    requires Good(sh) && DecodeShape(sh, s).Ok?
    ensures var (v, t) := DecodeShape(sh, s).value;
            WF(sh, v) && s == Enc(sh, v, true) + t
    decreases |s|, sh, 4
  {
    match sh
    case ListShape(elem) => ListShapeSound(sh, s);
    case TupleShape(elems) => TupleShapeSound(sh, s);
    case StructShape(_, _, _) =>
      StructShapeSound(sh, s);
    case UnionShape(disc, cases, open) => UnionShapeSound(sh, s);
    case OutcomeShape(st) => OutcomeShapeSound(s);
    case _ => LeafSound(sh, s);
  }

  lemma {:induction false} ListShapeSound(sh: Shape, s: Bytes)
    requires sh.ListShape? && Good(sh.elem) && DecodeShape(sh, s).Ok?
    ensures var (v, t) := DecodeShape(sh, s).value;
            WF(sh, v) && s == Enc(sh, v, true) + t
    decreases |s|, sh, 3
  {
    hide ReadCount, EncList, DecodeList, Good;
    var (n, t) := ReadCount(s, 4).value;
    ListSound(sh.elem, t, n);
    var (vs, u) := DecodeList(sh.elem, t, n).value;
    CountedCanonical(4, s, EncList(sh.elem, vs, true), u);
  }

  lemma {:induction false} TupleShapeSound(sh: Shape, s: Bytes)
    requires sh.TupleShape? && |sh.elems| < U64 && DecodeShape(sh, s).Ok?
    requires forall i :: 0 <= i < |sh.elems| ==> Good(sh.elems[i])
    ensures var (v, t) := DecodeShape(sh, s).value;
            WF(sh, v) && s == Enc(sh, v, true) + t
    decreases |s|, sh, 3
  {
    hide ReadCount, EncTuple, DecodeTuple, Good;
    var (n, t) := ReadCount(s, 4).value;
    TupleSound(sh.elems, t);
    var (vs, u) := DecodeTuple(sh.elems, t).value;
    CountedCanonical(4, s, EncTuple(sh.elems, vs, true), u);
  }

  lemma {:induction false} ListSound(elem: Shape, s: Bytes, n: nat)
    requires Good(elem) && DecodeList(elem, s, n).Ok?
    ensures var (vs, t) := DecodeList(elem, s, n).value;
            (forall i :: 0 <= i < |vs| ==> WF(elem, vs[i])) && s == EncList(elem, vs, true) + t
    decreases |s|, elem, 5, n
  {
    hide DecodeShape, WF, Enc, Good;
    if n > 0 {
      var (v, t) := DecodeShape(elem, s).value;
      ShapeSound(elem, s);
      ListSound(elem, t, n - 1);
      var (vs, u) := DecodeList(elem, t, n - 1).value;
      assert ([v] + vs)[1..] == vs;
      Associate(Enc(elem, v, true), EncList(elem, vs, true), u);
    }
  }

  lemma {:induction false} TupleSound(elems: seq<Shape>, s: Bytes)
    requires (forall i :: 0 <= i < |elems| ==> Good(elems[i])) && DecodeTuple(elems, s).Ok?
    ensures var (vs, t) := DecodeTuple(elems, s).value;
            (forall i :: 0 <= i < |elems| ==> WF(elems[i], vs[i])) && s == EncTuple(elems, vs, true) + t
    decreases |s|, elems, 5
  {
    hide DecodeShape, WF, Enc, Good;
    if elems != [] {
      var (v, t) := DecodeShape(elems[0], s).value;
      ShapeSound(elems[0], s);
      TupleSound(elems[1..], t);
      var (vs, u) := DecodeTuple(elems[1..], t).value;
      assert ([v] + vs)[1..] == vs;
      assert forall i :: 0 < i < |elems| ==> elems[i] == elems[1..][i - 1] && ([v] + vs)[i] == vs[i - 1];
      Associate(Enc(elems[0], v, true), EncTuple(elems[1..], vs, true), u);
    }
  }

  lemma {:induction false} UnionShapeSound(sh: Shape, s: Bytes)
    requires sh.UnionShape? && TextValue(sh.disc) && DecodeShape(sh, s).Ok?
    requires forall i :: 0 <= i < |sh.cases| ==> GoodCase(sh.disc, sh.cases[i])
    ensures var (v, t) := DecodeShape(sh, s).value;
            WF(sh, v) && s == Enc(sh, v, true) + t
    decreases |s|, sh, 3
  {
    var tag := Scan(sh.disc, s).value;
    if FindCase(sh.cases, tag).Yes? {
      var c := FindCase(sh.cases, tag).value;
      CaseSmaller(sh, c, tag);
      FoundCaseGood(sh.disc, sh.cases, tag);
      CaseSound(c, sh.disc, tag, s);
      UnionTagged(sh, tag, c, s);
    } else {
      FreeShapeSound(sh, tag, s);
    }
  }

  lemma UnionTagged(sh: Shape, tag: Bytes, c: Shape, s: Bytes)
    requires sh.UnionShape? && Scan(sh.disc, s) == Ok(tag) && FindCase(sh.cases, tag) == Yes(c)
    requires DecodeShape(sh, s).Ok?
    ensures DecodeShape(c, s).Ok?
    ensures var (v, t) := DecodeShape(c, s).value;
            && DecodeShape(sh, s).value == (Tagged(tag, v), t)
            && WF(sh, Tagged(tag, v)) == WF(c, v) && Enc(sh, Tagged(tag, v), true) == Enc(c, v, true)
  {
    hide Scan, FindCase;
  }

  /** The case a first pass selected carries its discriminant, so nothing implied was left unwritten. */
  lemma {:induction false} CaseSound(c: Shape, disc: Bytes, tag: Bytes, s: Bytes)
    requires c.StructShape? && GoodStruct(c) && HoldsLiteral(c, disc, tag)
    requires Scan(disc, s) == Ok(tag) && DecodeShape(c, s).Ok?
    ensures var (v, t) := DecodeShape(c, s).value;
            WF(c, v) && s == Enc(c, v, true) + t
    decreases |s|, c, 4
  {
    hide ReadCount, GoodStruct, DecodeFields, ScanFields, HasKey, FieldIndex, HasField, Enc, WF;
    var (n, t) := ReadCount(s, 5).value;
    ScanSees(c, disc, tag, t, n, First, No);
    StructShapeSound(c, s);
  }

  lemma FreeShapeSound(sh: Shape, tag: Bytes, s: Bytes)
    requires sh.UnionShape? && Scan(sh.disc, s) == Ok(tag) && FindCase(sh.cases, tag).No? && DecodeShape(sh, s).Ok?
    ensures var (v, t) := DecodeShape(sh, s).value;
            WF(sh, v) && s == Enc(sh, v, true) + t
  {
    hide ReadCount, DecodeFree, ScanFields, EncFree, FreeItem, HasKey, AscendingFrom;
    var (n, t) := ReadCount(s, 5).value;
    var items := FreeSound(sh.disc, t, n, First, No, []);
    assert [] + items == items;
    AscendingIff(ITEM_KEY, items);
    SeenTagOccurs(sh.disc, items, No);
    AscendingLabels(items);
    LookupIs(items, Item(TextLabel(sh.disc), Any(Text(tag))));
    CountedCanonical(5, s, EncFree(items), DecodeFree(t, n, []).value.1);
  }

  lemma {:induction false} OutcomeShapeSound(s: Bytes)
    requires DecodeShape(OutcomeShape(OUTCOME), s).Ok?
    ensures var (v, t) := DecodeShape(OutcomeShape(OUTCOME), s).value;
            WF(OutcomeShape(OUTCOME), v) && s == Enc(OutcomeShape(OUTCOME), v, true) + t
    decreases |s|, OutcomeShape(OUTCOME), 3
  {
    hide ReadCount, EncItems, WFItems, AscendingFrom, DecodeFields, Assemble, WFRecord, EncMap, Sort, OutcomeOf, OutcomeItems;
    var (n, t) := ReadCount(s, 5).value;
    var (items, u) := DecodeFields(OUTCOME, t, n, First).value;
    var v := Assemble(OUTCOME, items).value;
    OutcomeGood();
    FieldsSound(OUTCOME, t, n, First);
    FieldsAscend(OUTCOME, t, n, First);
    StructSound(OUTCOME, s, items, u, v);
    OutcomeKept(v, OutcomeOf(v).value);
  }
}
