/**
  The encoders as the code runs them: bytes appended to a writer, closed maps
  field by field, open maps collected by `CdeMapBuilder` and sorted.  They are
  proved to write what `Enc` says.
 */
module Encoding {
  import opened Common
  import opened Cbor
  import opened CdeOrder
  import opened Value
  import opened Schema
  import opened SchemaItems
  import opened SchemaForms
  import opened SchemaSound
  import opened SchemaRoundTrip

  class Writer {
    var buf: Bytes

    constructor ()
      ensures buf == []
    {
      buf := [];
    }

    method Head(major: nat, argument: nat)
      requires major < 8 && argument < U64
      modifies this
      ensures buf == old(buf) + HeadBytes(major, argument)
    {
      InitialByte(major, 0);
      hide HeadBytes;
      buf := PushHead(buf, major * 32, argument);
    }

    method Raw(bytes: Bytes)
      modifies this
      ensures buf == old(buf) + bytes
    {
      buf := buf + bytes;
    }

    /** A byte string (major 2) or text (major 3). */
    method String(major: nat, bytes: Bytes)
      requires major < 8 && |bytes| < U64
      modifies this
      ensures buf == old(buf) + (HeadBytes(major, |bytes|) + bytes)
    {
      Head(major, |bytes|);
      buf := buf + bytes;
    }

    method Integer(i: int)
      requires -I64 <= i < U64
      modifies this
      ensures buf == old(buf) + IntBytes(i)
    {
      if i >= 0 { Head(0, i); } else { Head(1, -1 - i); }
    }

    method Key(l: Label)
      requires ValidLabel(true, l) || ValidLabel(false, l)
      modifies this
      ensures buf == old(buf) + EncodeLabel(l)
    {
      match l
      case IntLabel(i) => Integer(i);
      case TextLabel(x) => String(3, x);
    }
  }

  // --- values -----------------------------------------------------------------------------

  /** `Encode for CborValue`. */
  method WriteValue(w: Writer, v: CborValue)
    requires Normal(v)
    modifies w
    ensures w.buf == old(w.buf) + EncodeValue(v)
    decreases v, 0
  {
    hide HeadBytes, IntBytes;
    match v {
      case Null => w.Raw([0xF6]);
      case Bool(b) => w.Raw([if b then 0xF5 else 0xF4]);
      case UInt(u) => w.Head(0, u);
      case Int(i) => w.Integer(i);
      case ByteString(b) => w.String(2, b);
      case Text(x) => w.String(3, x);
      case Array(items) =>
        w.Head(4, |items|);
        WriteItems(w, items);
      case Map(entries) =>
        w.Head(5, |entries|);
        WriteEntries(w, entries);
    }
  }

  method WriteItems(w: Writer, items: seq<CborValue>)
    requires NormalItems(items)
    modifies w
    ensures w.buf == old(w.buf) + EncodeItems(items)
    decreases items, 1
  {
    hide EncodeValue, Normal;
    ghost var start := w.buf;
    assert items[0..] == items;
    for i := 0 to |items|
      invariant NormalItems(items[i..])
      invariant w.buf + EncodeItems(items[i..]) == start + EncodeItems(items)
    {
      assert items[i..][0] == items[i] && items[i..][1..] == items[i + 1..];
      ghost var before := w.buf;
      WriteValue(w, items[i]);
      Associate(before, EncodeValue(items[i]), EncodeItems(items[i + 1..]));
    }
    assert w.buf + [] == w.buf;
  }

  method WriteEntries(w: Writer, entries: seq<Entry>)
    requires NormalEntries(First, entries)
    modifies w
    ensures w.buf == old(w.buf) + EncodeEntries(entries)
    decreases entries, 1
  {
    hide EncodeEntry, NormalEntry;
    ghost var start := w.buf;
    ghost var prev := First;
    assert entries[0..] == entries;
    for i := 0 to |entries|
      invariant NormalEntries(prev, entries[i..])
      invariant w.buf + EncodeEntries(entries[i..]) == start + EncodeEntries(entries)
    {
      assert entries[i..][0] == entries[i] && entries[i..][1..] == entries[i + 1..];
      ghost var before := w.buf;
      WriteEntry(w, entries[i], prev);
      Associate(before, EncodeEntry(entries[i]), EncodeEntries(entries[i + 1..]));
      prev := After(EncodeValue(entries[i].key));
    }
    assert w.buf + [] == w.buf;
  }

  method WriteEntry(w: Writer, e: Entry, ghost prev: Previous)
    requires NormalEntry(prev, e)
    modifies w
    ensures w.buf == old(w.buf) + EncodeEntry(e)
    decreases e, 0
  {
    ghost var start := w.buf;
    WriteValue(w, e.key);
    WriteValue(w, e.value);
    Associate(start, EncodeValue(e.key), EncodeValue(e.value));
  }

  // --- the sorting builder ------------------------------------------------------------------

  type Pair = (Bytes, Bytes)

  const PAIR_KEY: Pair -> Bytes := (p: Pair) => p.0

  function Concat(pairs: seq<Pair>): Bytes {
    if pairs == [] then [] else pairs[0].0 + pairs[0].1 + Concat(pairs[1..])
  }

  class CdeMapBuilder {
    var entries: seq<Pair>

    constructor ()
      ensures entries == []
    {
      entries := [];
    }

    method Push(key: Bytes, value: Bytes)
      modifies this
      ensures entries == old(entries) + [(key, value)]
    {
      entries := entries + [(key, value)];
    }

    /** The collected entries as one map, in key order. */
    method Write(w: Writer)
      requires |entries| < U64
      modifies w
      ensures w.buf == old(w.buf) + (HeadBytes(5, |entries|) + Concat(Sort(PAIR_KEY, entries)))
    {
      hide HeadBytes, Sort;
      var sorted := Sort(PAIR_KEY, entries);
      SortElements(PAIR_KEY, entries);
      w.Head(5, |sorted|);
      ghost var start := w.buf;
      assert sorted[0..] == sorted;
      for i := 0 to |sorted|
        invariant w.buf + Concat(sorted[i..]) == start + Concat(sorted)
      {
        assert sorted[i..][0] == sorted[i] && sorted[i..][1..] == sorted[i + 1..];
        ghost var before := w.buf;
        w.Raw(sorted[i].0);
        w.Raw(sorted[i].1);
        Associate(before, sorted[i].0, sorted[i].1);
        Associate(before, sorted[i].0 + sorted[i].1, Concat(sorted[i + 1..]));
      }
      assert w.buf + [] == w.buf;
      Associate(old(w.buf), HeadBytes(5, |sorted|), Concat(sorted));
    }
  }

  /** The bytes of one entry's value, as its table writes them. */
  function ItemBody(st: Shape, it: Item, canon: bool): Bytes
    requires st.StructShape?
  {
    match ShapeFor(st, it.key)
    case Yes(sh) => Enc(sh, it.val, canon)
    case No => []
  }

  function Pairs(st: Shape, items: seq<Item>, canon: bool): (r: seq<Pair>)
    requires st.StructShape?
    ensures |r| == |items|
    ensures forall i :: 0 <= i < |items| ==> r[i] == (EncodeLabel(items[i].key), ItemBody(st, items[i], canon))
  {
    seq(|items|, i requires 0 <= i < |items| => (EncodeLabel(items[i].key), ItemBody(st, items[i], canon)))
  }

  lemma {:induction false} InsertPairs(st: Shape, it: Item, items: seq<Item>, canon: bool)
    requires st.StructShape?
    ensures Insert(PAIR_KEY, (EncodeLabel(it.key), ItemBody(st, it, canon)), Pairs(st, items, canon)) == Pairs(st, Insert(ITEM_KEY, it, items), canon)
  {
    hide ItemBody, EncodeLabel, CdeLess;
    if !(items == [] || !CdeLess(ITEM_KEY(items[0]), ITEM_KEY(it))) {
      InsertPairs(st, it, items[1..], canon);
      assert Pairs(st, items, canon)[1..] == Pairs(st, items[1..], canon);
    }
  }

  /** Sorting encoded entries is encoding sorted entries. */
  lemma {:induction false} SortPairs(st: Shape, items: seq<Item>, canon: bool)
    requires st.StructShape?
    ensures Sort(PAIR_KEY, Pairs(st, items, canon)) == Pairs(st, Sort(ITEM_KEY, items), canon)
  {
    hide ItemBody, EncodeLabel, Insert;
    if items != [] {
      SortPairs(st, items[1..], canon);
      assert Pairs(st, items, canon)[1..] == Pairs(st, items[1..], canon);
      InsertPairs(st, items[0], Sort(ITEM_KEY, items[1..]), canon);
    }
  }

  lemma {:induction false} ConcatPairs(st: Shape, items: seq<Item>, canon: bool)
    requires st.StructShape?
    ensures Concat(Pairs(st, items, canon)) == EncItems(st, items, canon)
  {
    hide EncodeLabel, Enc;
    if items != [] {
      ConcatPairs(st, items[1..], canon);
      assert Pairs(st, items, canon)[1..] == Pairs(st, items[1..], canon);
    }
  }

  // --- tables -------------------------------------------------------------------------------------

  method WriteLeaf(w: Writer, sh: Shape, v: Val)
    requires Leaf(sh) && Good(sh) && WF(sh, v)
    modifies w
    ensures w.buf == old(w.buf) + Enc(sh, v, false)
  {
    hide HeadBytes, IntBytes;
    match sh {
      case UintShape => w.Head(0, v.i);
      case IntShape => w.Integer(v.i);
      case BytesShape => w.String(2, v.bytes);
      case SizedShape(_) => w.String(2, v.bytes);
      case TextShape => w.String(3, v.text);
      case EnumShape(_) => w.String(3, v.text);
      case LiteralShape(x) => w.String(3, x);
      case NullableBytesShape => if v.Blob? { w.String(2, v.bytes); } else { w.Raw([0xF6]); }
      case AnyShape => WriteValue(w, v.value);
    }
  }

  method WriteList(w: Writer, elem: Shape, vs: seq<Val>)
    requires Good(elem) && forall i :: 0 <= i < |vs| ==> WF(elem, vs[i])
    modifies w
    ensures w.buf == old(w.buf) + EncList(elem, vs, false)
    decreases elem, 4
  {
    hide Enc, WF, Good;
    ghost var start := w.buf;
    assert vs[0..] == vs;
    for i := 0 to |vs|
      invariant w.buf + EncList(elem, vs[i..], false) == start + EncList(elem, vs, false)
    {
      assert vs[i..][0] == vs[i] && vs[i..][1..] == vs[i + 1..];
      ghost var before := w.buf;
      WriteTable(w, elem, vs[i]);
      Associate(before, Enc(elem, vs[i], false), EncList(elem, vs[i + 1..], false));
    }
    assert w.buf + [] == w.buf;
  }

  method WriteTuple(w: Writer, elems: seq<Shape>, vs: seq<Val>)
    requires |elems| == |vs| && forall i :: 0 <= i < |elems| ==> Good(elems[i]) && WF(elems[i], vs[i])
    modifies w
    ensures w.buf == old(w.buf) + EncTuple(elems, vs, false)
    decreases elems, 4
  {
    hide Enc, WF, Good;
    ghost var start := w.buf;
    assert vs[0..] == vs && elems[0..] == elems;
    for i := 0 to |vs|
      invariant w.buf + EncTuple(elems[i..], vs[i..], false) == start + EncTuple(elems, vs, false)
    {
      assert vs[i..][0] == vs[i] && vs[i..][1..] == vs[i + 1..];
      assert elems[i..][0] == elems[i] && elems[i..][1..] == elems[i + 1..];
      ghost var before := w.buf;
      WriteTable(w, elems[i], vs[i]);
      Associate(before, Enc(elems[i], vs[i], false), EncTuple(elems[i + 1..], vs[i + 1..], false));
    }
    assert w.buf + [] == w.buf;
  }

  /** One entry's value, encoded on its own. */
  method EncodeBody(st: Shape, it: Item) returns (bytes: Bytes)
    requires st.StructShape? && GoodStruct(st) && WFItem(st, it)
    ensures bytes == ItemBody(st, it, false)
    decreases st, 0
  {
    hide Enc, WF, Good, GoodStruct;
    GoodShapeFor(st, it.key);
    var w := new Writer();
    WriteTable(w, ShapeFor(st, it.key).value, it.val);
    assert [] + w.buf == w.buf;
    return w.buf;
  }

  /** Entries one after the other, in the order given. */
  method WriteItemsInOrder(w: Writer, st: Shape, items: seq<Item>)
    requires st.StructShape? && GoodStruct(st) && WFItems(st, items)
    modifies w
    ensures w.buf == old(w.buf) + EncItems(st, items, false)
    decreases st, 1
  {
    hide Enc, WF, GoodStruct, EncodeLabel;
    ghost var start := w.buf;
    assert items[0..] == items;
    for i := 0 to |items|
      invariant w.buf + EncItems(st, items[i..], false) == start + EncItems(st, items, false)
    {
      assert items[i..][0] == items[i] && items[i..][1..] == items[i + 1..];
      ghost var before := w.buf;
      assert WFItem(st, items[i]);
      LabelWritable(st.labels, items[i].key);
      w.Key(items[i].key);
      var body := EncodeBody(st, items[i]);
      w.Raw(body);
      Associate(before, EncodeLabel(items[i].key), body);
      Associate(before, EncItem(st, items[i], false), EncItems(st, items[i + 1..], false));
    }
    assert w.buf + [] == w.buf;
  }

  lemma LabelWritable(labels: bool, l: Label)
    requires ValidLabel(labels, l)
    ensures ValidLabel(true, l) || ValidLabel(false, l)
  {
  }

  /** A map assembled by the builder: pushed in field order, then the tail, then sorted. */
  method WriteBuilt(w: Writer, st: Shape, items: seq<Item>)
    requires st.StructShape? && GoodStruct(st) && WFItems(st, items) && |items| < U64
    modifies w
    ensures w.buf == old(w.buf) + EncMap(st, Sort(ITEM_KEY, items), false)
    decreases st, 1
  {
    hide Enc, WFItem, GoodStruct, EncodeLabel, EncItems, Sort, HeadBytes, ItemBody, Concat;
    var builder := new CdeMapBuilder();
    for i := 0 to |items|
      invariant fresh(builder) && builder.entries == Pairs(st, items[..i], false)
      invariant w.buf == old(w.buf)
    {
      assert WFItem(st, items[i]);
      var body := EncodeBody(st, items[i]);
      builder.Push(EncodeLabel(items[i].key), body);
      assert builder.entries == Pairs(st, items[..i + 1], false);
    }
    assert items[..|items|] == items;
    builder.Write(w);
    SortPairs(st, items, false);
    ConcatPairs(st, Sort(ITEM_KEY, items), false);
    SortElements(ITEM_KEY, items);
  }

  method WriteStruct(w: Writer, st: Shape, v: Val)
    requires st.StructShape? && GoodStruct(st) && WFRecord(st, v)
    modifies w
    ensures w.buf == old(w.buf) + Enc(st, v, false)
    decreases st, 2
  {
    hide WFItems, GoodStruct, EncItems, HeadBytes, Sort, RecordItems;
    var items := RecordItems(st, v);
    if Built(st) {
      WriteBuilt(w, st, items);
    } else {
      w.Head(5, |items|);
      WriteItemsInOrder(w, st, items);
    }
  }

  /** Any writer of the schema. */
  method WriteTable(w: Writer, sh: Shape, v: Val)
    requires Good(sh) && WF(sh, v)
    modifies w
    ensures w.buf == old(w.buf) + Enc(sh, v, false)
    decreases sh, 3
  {
    if Leaf(sh) {
      WriteLeaf(w, sh, v);
      return;
    }
    hide EncList, EncTuple, HeadBytes, EncFree, FindCase, WFRecord, WFOutcome, GoodStruct, GoodCase, EncMap, EncItems;
    match sh {
      case ListShape(elem) =>
        w.Head(4, |v.items|);
        WriteList(w, elem, v.items);
        Associate(old(w.buf), HeadBytes(4, |v.items|), EncList(elem, v.items, false));
      case TupleShape(elems) =>
        w.Head(4, |elems|);
        WriteTuple(w, elems, v.items);
        Associate(old(w.buf), HeadBytes(4, |elems|), EncTuple(elems, v.items, false));
      case StructShape(_, _, _) =>
        WriteStruct(w, sh, v);
      case UnionShape(_, _, _) =>
        WriteUnion(w, sh, v);
      case OutcomeShape(st) =>
        WriteOutcome(w, sh, v);
    }
  }

  method WriteUnion(w: Writer, sh: Shape, v: Val)
    requires sh.UnionShape? && Good(sh) && WF(sh, v)
    modifies w
    ensures w.buf == old(w.buf) + Enc(sh, v, false)
    decreases sh, 2
  {
    hide HeadBytes, EncFree, FindCase;
    if v.Tagged? {
      var c := FindCase(sh.cases, v.tag).value;
      CaseSmaller(sh, c, v.tag);
      FoundCaseGood(sh.disc, sh.cases, v.tag);
      WriteStruct(w, c, v.body);
    } else {
      w.Head(5, |v.entries|);
      WriteFree(w, v.entries);
      Associate(old(w.buf), HeadBytes(5, |v.entries|), EncFree(v.entries));
    }
  }

  method WriteFree(w: Writer, items: seq<Item>)
    requires forall i :: 0 <= i < |items| ==> FreeItem(items[i])
    modifies w
    ensures w.buf == old(w.buf) + EncFree(items)
  {
    hide EncodeValue, EncodeLabel, Normal;
    ghost var start := w.buf;
    assert items[0..] == items;
    for i := 0 to |items|
      invariant w.buf + EncFree(items[i..]) == start + EncFree(items)
    {
      assert items[i..][0] == items[i] && items[i..][1..] == items[i + 1..];
      ghost var before := w.buf;
      assert FreeItem(items[i]);
      w.Key(items[i].key);
      WriteValue(w, items[i].val.value);
      Associate(before, EncodeLabel(items[i].key), EncodeValue(items[i].val.value));
      Associate(before, EncodeLabel(items[i].key) + EncodeValue(items[i].val.value), EncFree(items[i + 1..]));
    }
    assert w.buf + [] == w.buf;
  }

  lemma OutcomeItemsFormed(o: Val)
    requires WFOutcome(o)
    ensures GoodStruct(OUTCOME) && WFItems(OUTCOME, OutcomeItems(o)) && |OutcomeItems(o)| < U64
  {
    hide WFItem, Sort, RecordItems, OutcomeItems, OutcomeRecord, WFOutcome, GoodField, GoodTail;
    OutcomeGood();
    OutcomeRecordFormed(o);
    var items, record := OutcomeItems(o), RecordItems(OUTCOME, OutcomeRecord(o));
    SortElements(ITEM_KEY, items);
    SortElements(ITEM_KEY, record);
    forall i | 0 <= i < |items|
      ensures WFItem(OUTCOME, items[i])
    {
      assert items[i] in Sort(ITEM_KEY, items);
      assert items[i] in record;
    }
  }

  /** `Encode for ManageOutcome`: success through the builder, an error in its fixed order. */
  method WriteOutcome(w: Writer, sh: Shape, o: Val)
    requires sh == OutcomeShape(OUTCOME) && WFOutcome(o)
    modifies w
    ensures w.buf == old(w.buf) + Enc(sh, o, false)
    decreases sh, 2
  {
    hide WFItems, GoodStruct, EncItems, HeadBytes, Sort, OutcomeItems, Ascii, WFOutcome;
    OutcomeItemsFormed(o);
    var items := OutcomeItems(o);
    if o.Okay? {
      WriteBuilt(w, sh.outcome, items);
    } else {
      w.Head(5, |items|);
      WriteItemsInOrder(w, sh.outcome, items);
    }
  }
}
