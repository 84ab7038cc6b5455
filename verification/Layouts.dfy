/**
  What a table accepts and writes, entry by entry: which values each row takes
  and the bytes it contributes.  The lemmas about single frames, commands and
  structures spell these out with keys and kinds of value, and mention no table.
 */
module Layouts {
  import opened Common
  import opened Cbor
  import opened CdeOrder
  import opened Value
  import opened Schema
  import opened SchemaItems
  import opened SchemaForms
  import opened SchemaSound
  import opened SchemaCanonical
  import opened SchemaRoundTrip
  import opened Tables
  import opened Wire
  import opened Frames
  import opened Encoding

  // --- maps, entry by entry -----------------------------------------------------------------

  /** The entries of a map, given as one part for each possible key: one entry, or none. */
  function Gather(parts: seq<seq<Pair>>): seq<Pair> {
    if parts == [] then [] else parts[0] + Gather(parts[1..])
  }

  /** A map with these entries in this order. */
  function MapBytes(parts: seq<seq<Pair>>): Bytes {
    HeadBytes(5, |Gather(parts)|) + Concat(Gather(parts))
  }

  /** A map with these entries in key order. */
  function SortedMapBytes(parts: seq<seq<Pair>>): Bytes {
    HeadBytes(5, |Gather(parts)|) + Concat(Sort(PAIR_KEY, Gather(parts)))
  }

  // --- the kinds of value, and the entries they make -------------------------------------------

  predicate UintIn(s: Slot) {
    s.Present? && s.val.Num? && 0 <= s.val.i < U64
  }

  predicate IntIn(s: Slot) {
    s.Present? && s.val.Num? && -I64 <= s.val.i < I64
  }

  predicate BytesIn(s: Slot) {
    s.Present? && s.val.Blob? && |s.val.bytes| < U64
  }

  predicate SizedIn(n: nat, s: Slot) {
    s.Present? && s.val.Blob? && |s.val.bytes| == n
  }

  predicate TextIn(s: Slot) {
    s.Present? && s.val.Str? && TextValue(s.val.text)
  }

  /** A value of another structure. */
  predicate PartIn(sh: Shape, s: Slot) {
    s.Present? && WF(sh, s.val)
  }

  function Entry(name: Name, item: Bytes): Pair {
    (TextItem(Ascii(name)), item)
  }

  function UintEntry(name: Name, s: Slot): seq<Pair> {
    if s.Present? && s.val.Num? && s.val.i >= 0 then [Entry(name, HeadBytes(0, s.val.i))] else []
  }

  function IntEntry(name: Name, s: Slot): seq<Pair> {
    if s.Present? && s.val.Num? then [Entry(name, IntBytes(s.val.i))] else []
  }

  function BytesEntry(name: Name, s: Slot): seq<Pair> {
    if s.Present? && s.val.Blob? then [Entry(name, BytesItem(s.val.bytes))] else []
  }

  function TextEntry(name: Name, s: Slot): seq<Pair> {
    if s.Present? && s.val.Str? then [Entry(name, TextItem(s.val.text))] else []
  }

  function WordEntry(name: Name, word: Name): seq<Pair> {
    [Entry(name, TextItem(Ascii(word)))]
  }

  function PartEntry(name: Name, sh: Shape, s: Slot): seq<Pair> {
    if s.Present? then [Entry(name, Enc(sh, s.val, true))] else []
  }

  // --- rows ------------------------------------------------------------------------------------------

  predicate SlotFits(row: Row, s: Slot) {
    if s.Absent? then row.presence.Optional? else WF(row.shape, s.val)
  }

  function RowPart(row: Row, s: Slot): seq<Pair> {
    PartEntry(row.name, row.shape, s)
  }

  function RowParts(rows: seq<Row>, slots: seq<Slot>): (r: seq<seq<Pair>>)
    requires |rows| == |slots|
    ensures |r| == |rows| && forall i :: 0 <= i < |rows| ==> r[i] == RowPart(rows[i], slots[i])
  {
    seq(|rows|, i requires 0 <= i < |rows| => RowPart(rows[i], slots[i]))
  }

  predicate RowsFit(rows: seq<Row>, v: Val) {
    v.Record? && |v.slots| == |rows| && forall i :: 0 <= i < |rows| ==> SlotFits(rows[i], v.slots[i])
  }

  lemma UintRow(row: Row, s: Slot)
    requires row.shape == UintShape
    ensures SlotFits(row, s) <==> UintIn(s) || (s.Absent? && row.presence.Optional?)
    ensures s.Present? ==> (WF(row.shape, s.val) <==> UintIn(s))
    ensures s.Absent? || UintIn(s) ==> RowPart(row, s) == UintEntry(row.name, s)
  {
  }

  lemma IntRow(row: Row, s: Slot)
    requires row.shape == IntShape
    ensures SlotFits(row, s) <==> IntIn(s) || (s.Absent? && row.presence.Optional?)
    ensures s.Present? ==> (WF(row.shape, s.val) <==> IntIn(s))
    ensures s.Absent? || IntIn(s) ==> RowPart(row, s) == IntEntry(row.name, s)
  {
  }

  lemma BytesRow(row: Row, s: Slot)
    requires row.shape == BytesShape
    ensures SlotFits(row, s) <==> BytesIn(s) || (s.Absent? && row.presence.Optional?)
    ensures s.Present? ==> (WF(row.shape, s.val) <==> BytesIn(s))
    ensures s.Absent? || BytesIn(s) ==> RowPart(row, s) == BytesEntry(row.name, s)
  {
  }

  lemma SizedRow(row: Row, n: nat, s: Slot)
    requires row.shape == SizedShape(n) && n < 256
    ensures SlotFits(row, s) <==> SizedIn(n, s) || (s.Absent? && row.presence.Optional?)
    ensures s.Present? ==> (WF(row.shape, s.val) <==> SizedIn(n, s))
    ensures s.Absent? || SizedIn(n, s) ==> RowPart(row, s) == BytesEntry(row.name, s)
  {
  }

  lemma TextRow(row: Row, s: Slot)
    requires row.shape == TextShape
    ensures SlotFits(row, s) <==> TextIn(s) || (s.Absent? && row.presence.Optional?)
    ensures s.Present? ==> (WF(row.shape, s.val) <==> TextIn(s))
    ensures s.Absent? || TextIn(s) ==> RowPart(row, s) == TextEntry(row.name, s)
  {
  }

  lemma WordRow(row: Row, word: Name, s: Slot)
    requires row.shape == LiteralShape(Ascii(word)) && !row.presence.Optional?
    ensures SlotFits(row, s) <==> s == Present(Unit)
    ensures s.Present? ==> (WF(row.shape, s.val) <==> s == Present(Unit))
    ensures s == Present(Unit) ==> RowPart(row, s) == WordEntry(row.name, word)
  {
  }

  lemma PartRow(row: Row, s: Slot)
    ensures SlotFits(row, s) <==> PartIn(row.shape, s) || (s.Absent? && row.presence.Optional?)
    ensures s.Present? ==> (WF(row.shape, s.val) <==> PartIn(row.shape, s))
    ensures RowPart(row, s) == PartEntry(row.name, row.shape, s)
  {
  }

  // --- closed tables -------------------------------------------------------------------------------------

  lemma RowBody(rows: seq<Row>, st: Shape, i: nat, v: Val)
    requires st.StructShape? && st.fields == Fields(rows) && DistinctFields(st.fields) && i < |rows|
    ensures (EncodeLabel(Key(rows[i].name)), ItemBody(st, Item(Key(rows[i].name), v), true)) == Entry(rows[i].name, Enc(rows[i].shape, v, true))
  {
    hide Ascii, TextItem, Enc;
    FieldFound(st.fields, i);
  }

  lemma {:induction false} GatherItems(rows: seq<Row>, st: Shape, slots: seq<Slot>, i: nat)
    requires st.StructShape? && st.fields == Fields(rows) && DistinctFields(st.fields) && |rows| == |slots| && i <= |rows|
    ensures Pairs(st, SlotItems(st.fields[i..], slots[i..]), true) == Gather(RowParts(rows, slots)[i..])
    decreases |rows| - i
  {
    hide Ascii, TextItem, Enc, ItemBody, EncodeLabel, DistinctFields;
    if i < |rows| {
      GatherItems(rows, st, slots, i + 1);
      var fields, parts := st.fields, RowParts(rows, slots);
      assert fields[i..][1..] == fields[i + 1..] && slots[i..][1..] == slots[i + 1..] && parts[i..][1..] == parts[i + 1..];
      var rest := SlotItems(fields[i + 1..], slots[i + 1..]);
      if slots[i].Present? {
        var it := Item(Key(rows[i].name), slots[i].val);
        assert SlotItems(fields[i..], slots[i..]) == [it] + rest;
        RowBody(rows, st, i, slots[i].val);
        PairsCons(st, it, rest);
      } else {
        assert SlotItems(fields[i..], slots[i..]) == rest;
      }
    }
  }

  lemma PairsCons(st: Shape, it: Item, rest: seq<Item>)
    requires st.StructShape?
    ensures Pairs(st, [it] + rest, true) == [(EncodeLabel(it.key), ItemBody(st, it, true))] + Pairs(st, rest, true)
  {
    hide ItemBody, EncodeLabel;
  }

  /** The bytes of a closed table's value, entry by entry. */
  lemma RowsWritten(rows: seq<Row>, v: Val)
    requires Climbing(rows) && v.Record? && |v.slots| == |rows| && v.extra == []
    ensures Enc(Table(rows), v, true) == MapBytes(RowParts(rows, v.slots))
  {
    hide Ascii, TextItem, EncItems, Climbing, HeadBytes, Concat;
    var st := Table(rows);
    var items := SlotItems(st.fields, v.slots);
    ClimbingAscends(rows);
    SlotItemsAscend(st.fields, v.slots);
    assert RecordItems(st, v) == items;
    SortFixed(ITEM_KEY, items);
    GatherItems(rows, st, v.slots, 0);
    assert st.fields[0..] == st.fields && v.slots[0..] == v.slots && RowParts(rows, v.slots)[0..] == RowParts(rows, v.slots);
    ConcatPairs(st, items, true);
  }

  lemma {:induction false} SlotItemsFew(fields: seq<Field>, slots: seq<Slot>)
    requires |fields| == |slots|
    ensures |SlotItems(fields, slots)| <= |fields|
  {
    if fields != [] { SlotItemsFew(fields[1..], slots[1..]); }
  }

  /** A closed table's values: every row its own kind, and no tail. */
  lemma RowsFormed(rows: seq<Row>, v: Val)
    requires DistinctFields(Fields(rows)) && |rows| < 256
    ensures WFRecord(Table(rows), v) <==> RowsFit(rows, v) && v.extra == []
  {
    hide Ascii, WF, ValidUtf8;
    var st := Table(rows);
    if WFRecord(st, v) {
      ClosedHasNoTail(st, v);
      forall i | 0 <= i < |rows|
        ensures SlotFits(rows[i], v.slots[i])
      {
        SlotFormed(rows, v, i);
      }
    }
    if RowsFit(rows, v) && v.extra == [] {
      var items := SlotItems(st.fields, v.slots);
      assert RecordItems(st, v) == items;
      SlotItemsFew(st.fields, v.slots);
      forall j | 0 <= j < |items|
        ensures WFItem(st, items[j])
      {
        FittingItem(rows, st, v, items[j]);
      }
      forall i | 0 <= i < |rows| && v.slots[i].Absent?
        ensures st.fields[i].presence.Optional?
      {
        assert SlotFits(rows[i], v.slots[i]);
      }
    }
  }

  lemma FittingItem(rows: seq<Row>, st: Shape, v: Val, it: Item)
    requires RowsFit(rows, v) && st.StructShape? && st.fields == Fields(rows) && DistinctFields(st.fields) && !st.labels
    requires it in SlotItems(st.fields, v.slots)
    ensures WFItem(st, it)
  {
    hide Ascii, WF, ValidUtf8;
    SlotItemsElements(st.fields, v.slots, it);
    var i: nat :| FromSlot(st.fields, v.slots, it, i);
    assert SlotFits(rows[i], v.slots[i]);
    FieldFound(st.fields, i);
    NameIsText(rows[i].name);
  }

  /** A structure that is a closed table. */
  lemma TableLayout(rows: seq<Row>, v: Val)
    requires Climbing(rows) && |rows| < 256
    ensures WF(Table(rows), v) <==> RowsFit(rows, v) && v.extra == []
    ensures WF(Table(rows), v) ==> Enc(Table(rows), v, true) == MapBytes(RowParts(rows, v.slots))
  {
    ClimbingAscends(rows);
    RowsFormed(rows, v);
    hide Climbing, Ascii, WFRecord, Enc, MapBytes, SlotFits;
    if WF(Table(rows), v) { RowsWritten(rows, v); }
  }

  /** A closed table whose rows are not in key order: the entries are the same, sorted. */
  lemma UnsortedLayout(rows: seq<Row>, v: Val)
    requires DistinctFields(Fields(rows)) && |rows| < 256
    ensures WF(Table(rows), v) <==> RowsFit(rows, v) && v.extra == []
    ensures WF(Table(rows), v) ==> Enc(Table(rows), v, true) == SortedMapBytes(RowParts(rows, v.slots))
  {
    RowsFormed(rows, v);
    hide Ascii, WFRecord, TextItem, EncItems, HeadBytes, Concat, Sort, SlotFits, ItemBody, EncodeLabel, DistinctFields;
    if WF(Table(rows), v) {
      var st := Table(rows);
      var items := RecordItems(st, v);
      assert items == SlotItems(st.fields, v.slots);
      GatherItems(rows, st, v.slots, 0);
      assert st.fields[0..] == st.fields && v.slots[0..] == v.slots && RowParts(rows, v.slots)[0..] == RowParts(rows, v.slots);
      SortPairs(st, items, true);
      ConcatPairs(st, Sort(ITEM_KEY, items), true);
      SortElements(ITEM_KEY, items);
    }
  }

  // --- tables with an open tail --------------------------------------------------------------------------------

  /** What an open tail may hold: ascending keys of its own, each with any value. */
  predicate TailFits(fields: seq<Field>, labels: bool, extra: seq<Item>) {
    && Ascending(ITEM_KEY, extra)
    && forall j :: 0 <= j < |extra| ==>
         && ValidLabel(labels, extra[j].key) && extra[j].val.Any? && Normal(extra[j].val.value)
         && forall i :: 0 <= i < |fields| ==> fields[i].key != extra[j].key
  }

  function TailPairs(extra: seq<Item>): (r: seq<Pair>)
    ensures |r| == |extra|
    ensures forall j :: 0 <= j < |extra| ==>
              r[j] == (EncodeLabel(extra[j].key), if extra[j].val.Any? then EncodeValue(extra[j].val.value) else [])
  {
    seq(|extra|, j requires 0 <= j < |extra| =>
      (EncodeLabel(extra[j].key), if extra[j].val.Any? then EncodeValue(extra[j].val.value) else []))
  }

  function FieldPart(f: Field, s: Slot): seq<Pair> {
    if s.Present? then [(EncodeLabel(f.key), Enc(f.shape, s.val, true))] else []
  }

  function FieldParts(fields: seq<Field>, slots: seq<Slot>): (r: seq<seq<Pair>>)
    requires |fields| == |slots|
    ensures |r| == |fields| && forall i :: 0 <= i < |fields| ==> r[i] == FieldPart(fields[i], slots[i])
  {
    seq(|fields|, i requires 0 <= i < |fields| => FieldPart(fields[i], slots[i]))
  }

  predicate FieldFits(f: Field, s: Slot) {
    if s.Absent? then f.presence.Optional? else WF(f.shape, s.val)
  }

  predicate FieldsFit(fields: seq<Field>, v: Val) {
    v.Record? && |v.slots| == |fields| && forall i :: 0 <= i < |fields| ==> FieldFits(fields[i], v.slots[i])
  }

  predicate IsOpen(st: Shape) {
    && st.StructShape? && st.tail == Open(AnyShape) && DistinctFields(st.fields)
    && forall i :: 0 <= i < |st.fields| ==> ValidLabel(st.labels, st.fields[i].key)
  }

  lemma NotAField(fields: seq<Field>, l: Label)
    ensures HasField(fields, l) <==> exists i :: 0 <= i < |fields| && fields[i].key == l
  {
  }

  lemma TailItem(st: Shape, it: Item)
    requires st.StructShape? && IsOpen(st) && !HasField(st.fields, it.key)
    ensures WFItem(st, it) <==> ValidLabel(st.labels, it.key) && it.val.Any? && Normal(it.val.value)
    ensures it.val.Any? ==> ItemBody(st, it, true) == EncodeValue(it.val.value)
  {
    hide ValidLabel, Normal, EncodeValue;
  }

  lemma FieldItem(st: Shape, slots: seq<Slot>, i: nat)
    requires st.StructShape? && IsOpen(st) && |slots| == |st.fields| && i < |slots| && slots[i].Present?
    ensures var it := Item(st.fields[i].key, slots[i].val);
            && (WFItem(st, it) <==> WF(st.fields[i].shape, slots[i].val))
            && ItemBody(st, it, true) == Enc(st.fields[i].shape, slots[i].val, true)
  {
    hide ValidLabel, WF, Enc;
    FieldFound(st.fields, i);
  }

  lemma {:induction false} GatherFields(st: Shape, slots: seq<Slot>, i: nat)
    requires st.StructShape? && IsOpen(st) && |slots| == |st.fields| && i <= |slots|
    ensures Pairs(st, SlotItems(st.fields[i..], slots[i..]), true) == Gather(FieldParts(st.fields, slots)[i..])
    decreases |slots| - i
  {
    hide Enc, ItemBody, EncodeLabel, IsOpen, WF;
    if i < |slots| {
      GatherFields(st, slots, i + 1);
      var fields, parts := st.fields, FieldParts(st.fields, slots);
      assert fields[i..][1..] == fields[i + 1..] && slots[i..][1..] == slots[i + 1..] && parts[i..][1..] == parts[i + 1..];
      var rest := SlotItems(fields[i + 1..], slots[i + 1..]);
      if slots[i].Present? {
        var it := Item(fields[i].key, slots[i].val);
        assert SlotItems(fields[i..], slots[i..]) == [it] + rest;
        FieldItem(st, slots, i);
        PairsCons(st, it, rest);
      } else {
        assert SlotItems(fields[i..], slots[i..]) == rest;
      }
    }
  }

  lemma {:induction false} GatherAppend(parts: seq<seq<Pair>>, last: seq<Pair>)
    ensures Gather(parts + [last]) == Gather(parts) + last
  {
    if parts == [] {
      assert [last][1..] == [];
      assert parts + [last] == [last];
    } else {
      GatherAppend(parts[1..], last);
      assert (parts + [last])[1..] == parts[1..] + [last];
    }
  }

  /** The bytes of a map with an open tail: its fields' entries and its tail's, in key order. */
  lemma OpenWritten(st: Shape, v: Val)
    requires st.StructShape? && IsOpen(st) && FieldsFit(st.fields, v) && TailFits(st.fields, st.labels, v.extra)
    ensures Enc(st, v, true) == SortedMapBytes(FieldParts(st.fields, v.slots) + [TailPairs(v.extra)])
    ensures |RecordItems(st, v)| == |Gather(FieldParts(st.fields, v.slots) + [TailPairs(v.extra)])|
  {
    hide WF, EncItems, HeadBytes, Concat, Sort, IsOpen, ItemBody, EncodeLabel, EncodeValue, ValidLabel, Normal, FieldFits;
    var items, parts := RecordItems(st, v), FieldParts(st.fields, v.slots);
    GatherFields(st, v.slots, 0);
    assert st.fields[0..] == st.fields && v.slots[0..] == v.slots && parts[0..] == parts;
    GatherAppend(parts, TailPairs(v.extra));
    forall j | 0 <= j < |v.extra|
      ensures ItemBody(st, v.extra[j], true) == EncodeValue(v.extra[j].val.value)
    {
      NotAField(st.fields, v.extra[j].key);
      TailItem(st, v.extra[j]);
    }
    assert Pairs(st, items, true) == Gather(parts + [TailPairs(v.extra)]);
    SortPairs(st, items, true);
    ConcatPairs(st, Sort(ITEM_KEY, items), true);
    SortElements(ITEM_KEY, items);
  }

  /** The values of a map with an open tail. */
  lemma OpenValues(st: Shape, v: Val)
    requires st.StructShape? && IsOpen(st)
    ensures WFRecord(st, v) <==>
            && FieldsFit(st.fields, v) && TailFits(st.fields, st.labels, v.extra)
            && |Gather(FieldParts(st.fields, v.slots) + [TailPairs(v.extra)])| < U64
  {
    if v.Record? && |v.slots| == |st.fields| {
      if WFRecord(st, v) { FormedFits(st, v); }
      if FieldsFit(st.fields, v) && TailFits(st.fields, st.labels, v.extra) { FitsFormed(st, v); }
      hide *;
      if FieldsFit(st.fields, v) && TailFits(st.fields, st.labels, v.extra) { OpenWritten(st, v); }
    }
  }

  lemma FormedFits(st: Shape, v: Val)
    requires st.StructShape? && IsOpen(st) && WFRecord(st, v)
    ensures FieldsFit(st.fields, v) && TailFits(st.fields, st.labels, v.extra) && |RecordItems(st, v)| < U64
  {
    hide WF, IsOpen, ValidLabel, Normal, Ascending;
    var items := RecordItems(st, v);
    forall i | 0 <= i < |st.fields|
      ensures FieldFits(st.fields[i], v.slots[i])
    {
      if v.slots[i].Present? {
        var it := Item(st.fields[i].key, v.slots[i].val);
        assert FromSlot(st.fields, v.slots, it, i);
        SlotItemsElements(st.fields, v.slots, it);
        assert it in items;
        var j :| 0 <= j < |items| && items[j] == it;
        assert WFItem(st, items[j]);
        FieldItem(st, v.slots, i);
      }
    }
    forall j | 0 <= j < |v.extra|
      ensures ValidLabel(st.labels, v.extra[j].key) && v.extra[j].val.Any? && Normal(v.extra[j].val.value)
      ensures forall i :: 0 <= i < |st.fields| ==> st.fields[i].key != v.extra[j].key
    {
      assert items[|SlotItems(st.fields, v.slots)| + j] == v.extra[j];
      assert WFItem(st, items[|SlotItems(st.fields, v.slots)| + j]);
      NotAField(st.fields, v.extra[j].key);
      TailItem(st, v.extra[j]);
    }
  }

  lemma FitsFormed(st: Shape, v: Val)
    requires st.StructShape? && IsOpen(st) && FieldsFit(st.fields, v) && TailFits(st.fields, st.labels, v.extra)
    ensures WFRecord(st, v) <==> |RecordItems(st, v)| < U64
  {
    hide WF, IsOpen, ValidLabel, Normal, Ascending;
    var items := RecordItems(st, v);
    forall k | 0 <= k < |items|
      ensures WFItem(st, items[k])
    {
      var n := |SlotItems(st.fields, v.slots)|;
      if k < n {
        assert items[k] in SlotItems(st.fields, v.slots);
        SlotItemsElements(st.fields, v.slots, items[k]);
        var i: nat :| FromSlot(st.fields, v.slots, items[k], i);
        assert FieldFits(st.fields[i], v.slots[i]);
        FieldItem(st, v.slots, i);
      } else {
        NotAField(st.fields, v.extra[k - n].key);
        TailItem(st, v.extra[k - n]);
      }
    }
    forall j | 0 <= j < |v.extra|
      ensures !HasField(st.fields, v.extra[j].key)
    {
      NotAField(st.fields, v.extra[j].key);
    }
    forall i | 0 <= i < |st.fields| && v.slots[i].Absent?
      ensures st.fields[i].presence.Optional?
    {
      assert FieldFits(st.fields[i], v.slots[i]);
    }
  }

  /** The same for a table of names. */
  lemma OpenLayout(rows: seq<Row>, v: Val)
    requires Climbing(rows)
    ensures WF(OpenTable(rows), v) <==>
            && RowsFit(rows, v) && TailFits(Fields(rows), false, v.extra)
            && |Gather(RowParts(rows, v.slots) + [TailPairs(v.extra)])| < U64
    ensures WF(OpenTable(rows), v) ==> Enc(OpenTable(rows), v, true) == SortedMapBytes(RowParts(rows, v.slots) + [TailPairs(v.extra)])
  {
    ClimbingAscends(rows);
    OpenTableIs(rows);
    OpenRows(rows, v);
    hide Climbing, Ascii, WFRecord, Enc, SortedMapBytes, SlotFits, TailFits, IsOpen, FieldFits;
    OpenValues(OpenTable(rows), v);
    if WF(OpenTable(rows), v) { OpenWritten(OpenTable(rows), v); }
  }

  /** A tail of text keys other than these names, ascending, with any values. */
  predicate FreeTail(names: seq<Name>, extra: seq<Item>) {
    && Ascending(ITEM_KEY, extra)
    && forall j :: 0 <= j < |extra| ==>
         && extra[j].key.TextLabel? && TextValue(extra[j].key.text) && extra[j].val.Any? && Normal(extra[j].val.value)
         && forall i :: 0 <= i < |names| ==> extra[j].key != Key(names[i])
  }

  lemma TailNames(rows: seq<Row>, names: seq<Name>, extra: seq<Item>)
    requires |names| == |rows| && forall i :: 0 <= i < |rows| ==> names[i] == rows[i].name
    ensures TailFits(Fields(rows), false, extra) <==> FreeTail(names, extra)
  {
    hide Ascii, Normal, ValidUtf8, Ascending;
    forall j | 0 <= j < |extra|
      ensures (forall i :: 0 <= i < |names| ==> extra[j].key != Key(names[i])) <==>
              (forall i :: 0 <= i < |rows| ==> Fields(rows)[i].key != extra[j].key)
    {
      assert forall i :: 0 <= i < |rows| ==> Fields(rows)[i].key == Key(names[i]);
    }
  }

  lemma OpenTableIs(rows: seq<Row>)
    requires DistinctFields(Fields(rows))
    ensures IsOpen(OpenTable(rows)) && OpenTable(rows).fields == Fields(rows) && !OpenTable(rows).labels
  {
    hide Ascii, ValidUtf8;
    forall i | 0 <= i < |rows|
      ensures ValidLabel(false, Fields(rows)[i].key)
    {
      NameIsText(rows[i].name);
    }
  }

  lemma OpenRows(rows: seq<Row>, v: Val)
    ensures RowsFit(rows, v) <==> FieldsFit(Fields(rows), v)
    ensures v.Record? && |v.slots| == |rows| ==> FieldParts(Fields(rows), v.slots) == RowParts(rows, v.slots)
  {
    hide Ascii, WF, Enc, TextItem;
    if v.Record? && |v.slots| == |rows| {
      forall i | 0 <= i < |rows|
        ensures FieldFits(Fields(rows)[i], v.slots[i]) <==> SlotFits(rows[i], v.slots[i])
        ensures FieldPart(Fields(rows)[i], v.slots[i]) == RowPart(rows[i], v.slots[i])
      {
      }
    }
  }

  // --- whole frames and commands ------------------------------------------------------------------------------

  lemma CaseUnfold(sh: Shape, tag: Bytes, c: Shape, v: Val)
    requires sh.UnionShape? && FindCase(sh.cases, tag) == Yes(c)
    ensures WF(sh, Tagged(tag, v)) <==> WF(c, v)
    ensures Enc(sh, Tagged(tag, v), true) == Enc(c, v, true)
  {
  }

  /** Which bytes are accepted as a frame of one kind, and what they are decoded to. */
  lemma FrameLayout(tag: Name, rows: seq<Row>, b: Bytes, v: Val)
    requires FindCase(FRAME_CASES, Ascii(tag)) == Yes(Table(rows)) && Climbing(rows) && |rows| < 256
    ensures DecodeFrame(b) == Ok(Tagged(Ascii(tag), v)) <==>
            RowsFit(rows, v) && v.extra == [] && b == MapBytes(RowParts(rows, v.slots))
  {
    hide *;
    FrameCase(Ascii(tag), Table(rows), v);
    TableLayout(rows, v);
    FrameAccepted(b, Tagged(Ascii(tag), v));
    if RowsFit(rows, v) { RowsFitRecord(rows, v); }
  }

  lemma FrameCase(tag: Bytes, c: Shape, v: Val)
    requires FindCase(FRAME_CASES, tag) == Yes(c)
    ensures WF(FRAME, Tagged(tag, v)) <==> WF(c, v)
    ensures Enc(FRAME, Tagged(tag, v), true) == Enc(c, v, true)
  {
    hide FRAME_CASES, FindCase, Ascii, WF, Enc;
    CaseUnfold(FRAME, tag, c, v);
  }

  lemma RowsFitRecord(rows: seq<Row>, v: Val)
    requires RowsFit(rows, v)
    ensures v.Record? && |v.slots| == |rows|
  {
  }

  /** Accepted are exactly the sorted encodings of frames. */
  lemma FrameAccepted(b: Bytes, f: Val)
    ensures DecodeFrame(b) == Ok(f) <==> WF(FRAME, f) && b == Enc(FRAME, f, true)
  {
    hide DecodeFrame, WF, Enc, FRAME;
    if DecodeFrame(b) == Ok(f) { FrameCanonical(b); }
    if WF(FRAME, f) && b == Enc(FRAME, f, true) { FrameDecodingOnto(f); }
  }

  /** The same for a command's parameters, with whatever follows them. */
  lemma ParamLayout(tag: Name, rows: seq<Row>, b: Bytes, v: Val, t: Bytes)
    requires FindCase(PARAM_CASES, Ascii(tag)) == Yes(Table(rows)) && Climbing(rows) && |rows| < 256
    ensures DecodeShape(PARAMS, b) == Ok((Tagged(Ascii(tag), v), t)) <==>
            RowsFit(rows, v) && v.extra == [] && b == MapBytes(RowParts(rows, v.slots)) + t
  {
    hide *;
    ParamCase(Ascii(tag), Table(rows), v);
    TableLayout(rows, v);
    ParamAccepted(b, Tagged(Ascii(tag), v), t);
    if RowsFit(rows, v) { RowsFitRecord(rows, v); }
  }

  lemma ParamCase(tag: Bytes, c: Shape, v: Val)
    requires FindCase(PARAM_CASES, tag) == Yes(c)
    ensures WF(PARAMS, Tagged(tag, v)) <==> WF(c, v)
    ensures Enc(PARAMS, Tagged(tag, v), true) == Enc(c, v, true)
  {
    hide PARAM_CASES, FindCase, Ascii, WF, Enc;
    CaseUnfold(PARAMS, tag, c, v);
  }

  /** The same for parameters whose table is not in key order. */
  lemma UnsortedParamLayout(tag: Name, rows: seq<Row>, b: Bytes, v: Val, t: Bytes)
    requires FindCase(PARAM_CASES, Ascii(tag)) == Yes(Table(rows)) && DistinctFields(Fields(rows)) && |rows| < 256
    ensures DecodeShape(PARAMS, b) == Ok((Tagged(Ascii(tag), v), t)) <==>
            RowsFit(rows, v) && v.extra == [] && b == SortedMapBytes(RowParts(rows, v.slots)) + t
  {
    hide *;
    ParamCase(Ascii(tag), Table(rows), v);
    UnsortedLayout(rows, v);
    ParamAccepted(b, Tagged(Ascii(tag), v), t);
    if RowsFit(rows, v) { RowsFitRecord(rows, v); }
  }

  lemma ParamAccepted(b: Bytes, p: Val, t: Bytes)
    ensures DecodeShape(PARAMS, b) == Ok((p, t)) <==> WF(PARAMS, p) && b == Enc(PARAMS, p, true) + t
  {
    hide DecodeShape, WF, Enc, PARAMS;
    ParamsGood();
    if DecodeShape(PARAMS, b) == Ok((p, t)) { ShapeSound(PARAMS, b); }
    if WF(PARAMS, p) { ShapeRoundTrip(PARAMS, p, t); }
  }

  // --- missing fields --------------------------------------------------------------------------------------------

  /** Every field that is there is of its kind. */
  predicate PartsFit(rows: seq<Row>, slots: seq<Slot>) {
    |rows| == |slots| && forall i :: 0 <= i < |rows| ==> slots[i].Present? ==> WF(rows[i].shape, slots[i].val)
  }

  predicate Lacks(rows: seq<Row>, slots: seq<Slot>, i: nat)
    requires |rows| == |slots|
  {
    i < |rows| && slots[i].Absent? && rows[i].presence.Required?
  }

  lemma PartItems(rows: seq<Row>, slots: seq<Slot>)
    requires PartsFit(rows, slots) && Climbing(rows) && |rows| < 256
    ensures var st := Table(rows);
            var items := SlotItems(st.fields, slots);
            && WFItems(st, items) && AscendingFrom(ITEM_KEY, First, items) && |items| < U64
            && MapBytes(RowParts(rows, slots)) == EncMap(st, items, true)
  {
    hide Ascii, WF, ValidUtf8, Climbing, EncItems, HeadBytes, Concat, TextItem, AscendingFrom;
    var st := Table(rows);
    var items := SlotItems(st.fields, slots);
    ClimbingAscends(rows);
    SlotItemsAscend(st.fields, slots);
    AscendingIff(ITEM_KEY, items);
    SlotItemsFew(st.fields, slots);
    forall j | 0 <= j < |items|
      ensures WFItem(st, items[j])
    {
      assert items[j] in items;
      SlotItemsElements(st.fields, slots, items[j]);
      var i: nat :| FromSlot(st.fields, slots, items[j], i);
      FieldFound(st.fields, i);
      NameIsText(rows[i].name);
    }
    GatherItems(rows, st, slots, 0);
    assert st.fields[0..] == st.fields && slots[0..] == slots && RowParts(rows, slots)[0..] == RowParts(rows, slots);
    ConcatPairs(st, items, true);
  }

  lemma LackingRefused(rows: seq<Row>, slots: seq<Slot>, i: nat)
    requires |rows| == |slots| && DistinctFields(Fields(rows)) && Lacks(rows, slots, i)
    ensures Assemble(Table(rows), SlotItems(Fields(rows), slots)) == Err(MissingField)
  {
    hide Ascii;
    var fields := Fields(rows);
    var items := SlotItems(fields, slots);
    LookupFound(items, fields[i].key);
    if Lookup(items, fields[i].key).Present? {
      var it := Item(fields[i].key, Lookup(items, fields[i].key).val);
      SlotItemsElements(fields, slots, it);
    }
    assert SlotsFor(fields, items)[i].Absent?;
  }

  /** A map that lacks a required field is refused for that, after its tag was found. */
  lemma IncompleteRead(disc: Name, tag: Name, rows: seq<Row>, slots: seq<Slot>, k: nat, i: nat)
    requires PartsFit(rows, slots) && Climbing(rows) && |rows| < 256 && Lacks(rows, slots, i)
    requires GoodCase(Ascii(disc), Case(Ascii(tag), Table(rows))) && k < |rows| && rows[k].name == disc && slots[k].Present?
    ensures var b := MapBytes(RowParts(rows, slots));
            Scan(Ascii(disc), b) == Ok(Ascii(tag)) && DecodeShape(Table(rows), b) == Err(MissingField)
  {
    var st, b := Table(rows), MapBytes(RowParts(rows, slots));
    var items := SlotItems(st.fields, slots);
    assert GoodStruct(st) && HoldsLiteral(st, Ascii(disc), Ascii(tag));
    DiscriminantThere(rows, slots, k);
    ClimbingAscends(rows);
    hide *;
    PartItems(rows, slots);
    TableFields(rows);
    LackingRefused(rows, slots, i);
    FieldsRoundTrip(st, items, First, []);
    ScanSettled(Ascii(disc));
    ScanSees(st, Ascii(disc), Ascii(tag), EncItems(st, items, true) + [], |items|, First, No);
    CountedMap(st, items);
    ScanOf(Ascii(disc), Ascii(tag), b, items);
    StructRefused(st, b, items);
  }

  lemma TableFields(rows: seq<Row>)
    ensures Table(rows).StructShape? && Table(rows).fields == Fields(rows)
  {
    hide Fields;
  }

  lemma DiscriminantThere(rows: seq<Row>, slots: seq<Slot>, k: nat)
    requires |rows| == |slots| && k < |rows| && slots[k].Present?
    ensures HasKey(SlotItems(Fields(rows), slots), Key(rows[k].name))
  {
    hide Ascii;
    var it := Item(Key(rows[k].name), slots[k].val);
    assert FromSlot(Fields(rows), slots, it, k);
    SlotItemsElements(Fields(rows), slots, it);
  }

  lemma CountedMap(st: Shape, items: seq<Item>)
    requires st.StructShape? && |items| < U64
    ensures ReadCount(EncMap(st, items, true), 5) == Ok((|items|, EncItems(st, items, true) + []))
  {
    hide ReadCount, HeadBytes, EncItems;
    CountedReads(5, |items|, EncItems(st, items, true), []);
    assert EncMap(st, items, true) + [] == EncMap(st, items, true);
  }

  lemma StructRefused(st: Shape, b: Bytes, items: seq<Item>)
    requires st.StructShape? && ReadCount(b, 5).Ok?
    requires DecodeFields(st, ReadCount(b, 5).value.1, ReadCount(b, 5).value.0, First) == Ok((items, []))
    requires Assemble(st, items) == Err(MissingField)
    ensures DecodeShape(st, b) == Err(MissingField)
  {
    hide ReadCount, DecodeFields, Assemble;
  }

  lemma UnionRefuses(sh: Shape, b: Bytes, tag: Bytes, c: Shape)
    requires sh.UnionShape? && Scan(sh.disc, b) == Ok(tag) && FindCase(sh.cases, tag) == Yes(c) && DecodeShape(c, b) == Err(MissingField)
    ensures DecodeShape(sh, b) == Err(MissingField)
  {
    hide Scan, FindCase;
  }

  /** A frame that lacks a required field. */
  lemma FrameIncomplete(tag: Name, rows: seq<Row>, slots: seq<Slot>, k: nat, i: nat)
    requires FindCase(FRAME_CASES, Ascii(tag)) == Yes(Table(rows)) && Climbing(rows) && |rows| < 256
    requires |rows| == |slots| && PartsFit(rows, slots) && Lacks(rows, slots, i) && k < |rows| && rows[k].name == "type" && slots[k].Present?
    ensures DecodeFrame(MapBytes(RowParts(rows, slots))) == Err(MissingField)
  {
    hide *;
    FrameGood();
    FrameIsUnion();
    FoundGood(FRAME, Ascii(tag), Table(rows));
    IncompleteRead("type", tag, rows, slots, k, i);
    UnionRefuses(FRAME, MapBytes(RowParts(rows, slots)), Ascii(tag), Table(rows));
    FrameOf(MapBytes(RowParts(rows, slots)));
  }

  lemma FrameIsUnion()
    ensures FRAME.UnionShape? && FRAME.cases == FRAME_CASES && FRAME.disc == Ascii("type")
  {
    hide FRAME_CASES, Ascii;
  }

  lemma ParamsIsUnion()
    ensures PARAMS.UnionShape? && PARAMS.cases == PARAM_CASES && PARAMS.disc == Ascii("verb")
  {
    hide PARAM_CASES, Ascii;
  }

  lemma FrameOf(b: Bytes)
    requires DecodeShape(FRAME, b) == Err(MissingField)
    ensures DecodeFrame(b) == Err(MissingField)
  {
    hide DecodeShape, FRAME;
  }

  lemma FoundGood(sh: Shape, tag: Bytes, c: Shape)
    requires sh.UnionShape? && Good(sh) && FindCase(sh.cases, tag) == Yes(c)
    ensures GoodCase(sh.disc, Case(tag, c))
  {
    hide FindCase, GoodCase;
    FoundCaseGood(sh.disc, sh.cases, tag);
  }

  /** A command's parameters that lack a required field. */
  lemma ParamIncomplete(tag: Name, rows: seq<Row>, slots: seq<Slot>, k: nat, i: nat)
    requires FindCase(PARAM_CASES, Ascii(tag)) == Yes(Table(rows)) && Climbing(rows) && |rows| < 256
    requires |rows| == |slots| && PartsFit(rows, slots) && Lacks(rows, slots, i) && k < |rows| && rows[k].name == "verb" && slots[k].Present?
    ensures DecodeShape(PARAMS, MapBytes(RowParts(rows, slots))) == Err(MissingField)
  {
    hide *;
    ParamsGood();
    ParamsIsUnion();
    FoundGood(PARAMS, Ascii(tag), Table(rows));
    IncompleteRead("verb", tag, rows, slots, k, i);
    UnionRefuses(PARAMS, MapBytes(RowParts(rows, slots)), Ascii(tag), Table(rows));
  }

  // --- tags ----------------------------------------------------------------------------------------------------

  /** A number that tells the tags of the schema apart: length, second character and the last two. */
  function Mark(tag: Bytes): int {
    if |tag| < 3 then 0 else ((|tag| * 128 + tag[1]) * 128 + tag[|tag| - 2]) * 128 + tag[|tag| - 1]
  }

  lemma MarkOf(name: Name, second: char, last: char, end: char)
    requires |name| >= 3 && name[1] == second < '\U{0080}' && name[|name| - 2] == last < '\U{0080}' && name[|name| - 1] == end < '\U{0080}'
    ensures Mark(Ascii(name)) == ((|name| * 128 + second as int) * 128 + last as int) * 128 + end as int
  {
    var tag := Ascii(name);
    assert tag[1] == second as int && tag[|tag| - 2] == last as int && tag[|tag| - 1] == end as int;
  }

  lemma {:induction false} FoundAt(cases: seq<Case>, k: nat)
    requires k < |cases| && forall i :: 0 <= i < k ==> cases[i].tag != cases[k].tag
    ensures FindCase(cases, cases[k].tag) == Yes(cases[k].shape)
  {
    if k > 0 { FoundAt(cases[1..], k - 1); }
  }
}
