/**
  Facts about labels, slots and open tails that both directions of the codec
  proofs use: which entries a record has, and how decoding puts them back.
 */
module SchemaItems {
  import opened Common
  import opened Cbor
  import opened CdeOrder
  import opened Value
  import opened Schema

  // --- labels -----------------------------------------------------------------------

  lemma LabelReader(labels: bool, l: Label, s: Bytes, t: Bytes)
    requires ValidLabel(labels, l)
    ensures ReadLabel(labels, EncodeLabel(l) + t) == Ok((l, t))
    ensures ReadLabel(labels, s) == Ok((l, t)) ==> s == EncodeLabel(l) + t
  {
    match l
    case IntLabel(i) => IntLabelReader(i, s, t);
    case TextLabel(x) => TextLabelReader(labels, x, s, t);
  }

  lemma TextLabelReader(labels: bool, x: Bytes, s: Bytes, t: Bytes)
    requires TextValue(x)
    ensures ReadLabel(labels, TextItem(x) + t) == Ok((TextLabel(x), t))
    ensures ReadLabel(labels, s) == Ok((TextLabel(x), t)) ==> s == TextItem(x) + t
  {
    StringStarts(3, x, t);
    TextReader(x, s, t);
  }

  lemma IntLabelReader(i: int, s: Bytes, t: Bytes)
    requires -I64 <= i < I64
    ensures ReadLabel(true, IntBytes(i) + t) == Ok((IntLabel(i), t))
    ensures ReadLabel(true, s) == Ok((IntLabel(i), t)) ==> s == IntBytes(i) + t
  {
    if i >= 0 {
      HeadStarts(0, i, t);
      UintReader(i, s, t);
    } else {
      HeadStarts(1, -1 - i, t);
    }
    IntReader(i, s, t);
    if ReadLabel(true, s) == Ok((IntLabel(i), t)) && StartsWith(s, 0) {
      UintReader(ReadUint(s).value.0, s, t);
    }
  }

  lemma LabelRange(labels: bool, s: Bytes)
    requires ReadLabel(labels, s).Ok?
    ensures ValidLabel(labels, ReadLabel(labels, s).value.0)
  {
    if labels && StartsWith(s, 0) {
      UintRange(s);
    } else if labels && StartsWith(s, 1) {
      IntRange(s);
    } else {
      TextRange(s);
    }
  }

  /** Distinct labels have distinct encodings: a text "1" is not the integer 1. */
  lemma LabelsInjective(labels: bool, l: Label, m: Label)
    requires ValidLabel(labels, l) && ValidLabel(labels, m) && EncodeLabel(l) == EncodeLabel(m)
    ensures l == m
  {
    LabelReader(labels, l, [], []);
    LabelReader(labels, m, [], []);
  }

  predicate ValidLabels(labels: bool, items: seq<Item>) {
    forall i :: 0 <= i < |items| ==> ValidLabel(labels, items[i].key)
  }

  predicate DistinctLabels(items: seq<Item>) {
    forall i, j :: 0 <= i < j < |items| ==> items[i].key != items[j].key
  }

  lemma DistinctLabelsKeys(labels: bool, items: seq<Item>)
    requires ValidLabels(labels, items) && DistinctLabels(items)
    ensures DistinctKeys(ITEM_KEY, items)
  {
    forall i, j | 0 <= i < j < |items|
      ensures ITEM_KEY(items[i]) != ITEM_KEY(items[j])
    {
      if EncodeLabel(items[i].key) == EncodeLabel(items[j].key) {
        LabelsInjective(labels, items[i].key, items[j].key);
      }
    }
  }

  lemma AscendingLabels(items: seq<Item>)
    requires Ascending(ITEM_KEY, items)
    ensures DistinctLabels(items)
  {
    AscendingDistinct(ITEM_KEY, items);
    forall i, j | 0 <= i < j < |items|
      ensures items[i].key != items[j].key
    {
      assert ITEM_KEY(items[i]) != ITEM_KEY(items[j]);
    }
  }

  // --- lookups --------------------------------------------------------------------------

  predicate HasKey(items: seq<Item>, l: Label) {
    exists i :: 0 <= i < |items| && items[i].key == l
  }

  lemma {:induction false} LookupFound(items: seq<Item>, l: Label)
    ensures Lookup(items, l).Present? <==> HasKey(items, l)
    ensures Lookup(items, l).Present? ==> Item(l, Lookup(items, l).val) in items
  {
    if items != [] && items[0].key != l {
      LookupFound(items[1..], l);
      if HasKey(items[1..], l) {
        var i :| 0 <= i < |items[1..]| && items[1..][i].key == l;
        assert items[i + 1].key == l;
      }
      if HasKey(items, l) {
        var i :| 0 <= i < |items| && items[i].key == l;
        assert items[1..][i - 1].key == l;
      }
    }
  }

  lemma LookupIs(items: seq<Item>, it: Item)
    requires DistinctLabels(items) && it in items
    ensures Lookup(items, it.key) == Present(it.val)
  {
    var i :| 0 <= i < |items| && items[i] == it;
    assert HasKey(items, it.key);
    LookupFound(items, it.key);
    var j :| 0 <= j < |items| && items[j] == Item(it.key, Lookup(items, it.key).val);
    assert items[i].key == items[j].key;
  }

  lemma {:induction false} RestElements(fields: seq<Field>, items: seq<Item>)
    ensures forall it :: it in Rest(fields, items) <==> it in items && !HasField(fields, it.key)
  {
    if items != [] {
      RestElements(fields, items[1..]);
      assert items == [items[0]] + items[1..];
    }
  }

  lemma {:induction false} RestAscending(fields: seq<Field>, items: seq<Item>)
    requires Ascending(ITEM_KEY, items)
    ensures Ascending(ITEM_KEY, Rest(fields, items))
  {
    if items != [] {
      var r := Rest(fields, items[1..]);
      RestAscending(fields, items[1..]);
      RestElements(fields, items[1..]);
      forall j | 0 <= j < |r|
        ensures CdeLess(ITEM_KEY(items[0]), ITEM_KEY(r[j]))
      {
        assert r[j] in items[1..];
      }
    }
  }

  // --- a record's entries --------------------------------------------------------------------

  predicate DistinctFields(fields: seq<Field>) {
    forall i, j :: 0 <= i < j < |fields| ==> fields[i].key != fields[j].key
  }

  /** `it` is what slot `i` contributes. */
  predicate FromSlot(fields: seq<Field>, slots: seq<Slot>, it: Item, i: nat)
    requires |fields| == |slots|
  {
    i < |fields| && fields[i].key == it.key && slots[i] == Present(it.val)
  }

  lemma {:induction false} SlotItemsElements(fields: seq<Field>, slots: seq<Slot>, it: Item)
    requires |fields| == |slots|
    ensures it in SlotItems(fields, slots) <==> exists i: nat :: FromSlot(fields, slots, it, i)
  {
    if fields != [] {
      SlotItemsElements(fields[1..], slots[1..], it);
      if i: nat :| FromSlot(fields[1..], slots[1..], it, i) {
        assert FromSlot(fields, slots, it, i + 1);
      }
      if i: nat :| FromSlot(fields, slots, it, i) {
        if i > 0 {
          assert FromSlot(fields[1..], slots[1..], it, i - 1);
        }
      }
      if slots[0] == Present(it.val) && fields[0].key == it.key {
        assert FromSlot(fields, slots, it, 0);
      }
    }
  }

  lemma {:induction false} SlotItemsDistinct(fields: seq<Field>, slots: seq<Slot>)
    requires |fields| == |slots| && DistinctFields(fields)
    ensures DistinctLabels(SlotItems(fields, slots))
  {
    if fields != [] {
      var r := SlotItems(fields[1..], slots[1..]);
      SlotItemsDistinct(fields[1..], slots[1..]);
      forall j | 0 <= j < |r|
        ensures r[j].key != fields[0].key
      {
        SlotItemsElements(fields[1..], slots[1..], r[j]);
        var i: nat :| FromSlot(fields[1..], slots[1..], r[j], i);
        assert fields[i + 1].key == r[j].key;
      }
    }
  }

  lemma FieldFound(fields: seq<Field>, i: nat)
    requires DistinctFields(fields) && i < |fields|
    ensures HasField(fields, fields[i].key) && FieldIndex(fields, fields[i].key) == i
  {
    var j := FieldIndex(fields, fields[i].key);
    assert j < |fields|;
  }

  /** A record's written entries are distinct. */
  lemma RecordDistinct(st: Shape, v: Val)
    requires st.StructShape? && v.Record? && |v.slots| == |st.fields| && DistinctFields(st.fields)
    requires DistinctLabels(v.extra) && forall j :: 0 <= j < |v.extra| ==> !HasField(st.fields, v.extra[j].key)
    ensures DistinctLabels(RecordItems(st, v))
  {
    var a, b := SlotItems(st.fields, v.slots), v.extra;
    SlotItemsDistinct(st.fields, v.slots);
    forall i, j | 0 <= i < |a| && 0 <= j < |b|
      ensures a[i].key != b[j].key
    {
      SlotItemsElements(st.fields, v.slots, a[i]);
      var k: nat :| FromSlot(st.fields, v.slots, a[i], k);
      FieldFound(st.fields, k);
    }
  }

  /** What `Assemble` stored, read back as entries, is exactly what was read. */
  lemma AssembleKeeps(st: Shape, items: seq<Item>, v: Val)
    requires st.StructShape? && DistinctFields(st.fields) && ValidLabels(st.labels, items)
    requires Ascending(ITEM_KEY, items) && Assemble(st, items) == Ok(v)
    requires forall i :: 0 <= i < |st.fields| && st.fields[i].presence.Implied? ==> HasKey(items, st.fields[i].key)
    ensures v.Record? && |v.slots| == |st.fields| && Sort(ITEM_KEY, RecordItems(st, v)) == items
  {
    AscendingLabels(items);
    RestElements(st.fields, items);
    RestAscending(st.fields, items);
    AscendingLabels(v.extra);
    forall it
      ensures it in RecordItems(st, v) <==> it in items
    {
      RecordHasItem(st, items, v, it);
    }
    RecordDistinct(st, v);
    assert ValidLabels(st.labels, RecordItems(st, v)) by {
      forall i | 0 <= i < |RecordItems(st, v)|
        ensures ValidLabel(st.labels, RecordItems(st, v)[i].key)
      {
        assert RecordItems(st, v)[i] in items;
      }
    }
    DistinctLabelsKeys(st.labels, RecordItems(st, v));
    SortIs(ITEM_KEY, RecordItems(st, v), items);
  }

  lemma RecordHasItem(st: Shape, items: seq<Item>, v: Val, it: Item)
    requires st.StructShape? && DistinctFields(st.fields) && DistinctLabels(items)
    requires Assemble(st, items) == Ok(v)
    requires forall i :: 0 <= i < |st.fields| && st.fields[i].presence.Implied? ==> HasKey(items, st.fields[i].key)
    ensures it in RecordItems(st, v) <==> it in items
  {
    RestElements(st.fields, items);
    SlotItemsElements(st.fields, v.slots, it);
    if it in SlotItems(st.fields, v.slots) {
      var i: nat :| FromSlot(st.fields, v.slots, it, i);
      LookupFound(items, it.key);
    }
    if it in items && HasField(st.fields, it.key) {
      LookupIs(items, it);
      assert FromSlot(st.fields, v.slots, it, FieldIndex(st.fields, it.key));
    }
  }

  /** Assembling a record's own entries, in key order, gives the record back. */
  lemma AssembleInverts(st: Shape, v: Val)
    requires st.StructShape? && v.Record? && |v.slots| == |st.fields| && DistinctFields(st.fields)
    requires Complete(st.fields, v.slots) && Ascending(ITEM_KEY, v.extra)
    requires ValidLabels(st.labels, RecordItems(st, v))
    requires forall j :: 0 <= j < |v.extra| ==> !HasField(st.fields, v.extra[j].key)
    ensures Ascending(ITEM_KEY, Sort(ITEM_KEY, RecordItems(st, v)))
    ensures Assemble(st, Sort(ITEM_KEY, RecordItems(st, v))) == Ok(v)
  {
    var items := Sort(ITEM_KEY, RecordItems(st, v));
    AscendingLabels(v.extra);
    RecordDistinct(st, v);
    DistinctLabelsKeys(st.labels, RecordItems(st, v));
    SortAscending(ITEM_KEY, RecordItems(st, v));
    SortElements(ITEM_KEY, RecordItems(st, v));
    AscendingLabels(items);
    forall i | 0 <= i < |st.fields|
      ensures SlotFor(st.fields[i], items) == v.slots[i]
    {
      SlotRestored(st, v, items, i);
    }
    assert SlotsFor(st.fields, items) == v.slots;
    RestAscending(st.fields, items);
    forall it
      ensures it in Rest(st.fields, items) <==> it in v.extra
    {
      RestElements(st.fields, items);
      SlotItemsElements(st.fields, v.slots, it);
      if i: nat :| FromSlot(st.fields, v.slots, it, i) { FieldFound(st.fields, i); }
    }
    AscendingUnique(ITEM_KEY, Rest(st.fields, items), v.extra);
  }

  lemma SlotRestored(st: Shape, v: Val, items: seq<Item>, i: nat)
    requires st.StructShape? && v.Record? && |v.slots| == |st.fields| && DistinctFields(st.fields) && i < |st.fields|
    requires Complete(st.fields, v.slots) && DistinctLabels(items)
    requires forall it :: it in items <==> it in RecordItems(st, v)
    requires forall j :: 0 <= j < |v.extra| ==> !HasField(st.fields, v.extra[j].key)
    ensures SlotFor(st.fields[i], items) == v.slots[i]
  {
    var f := st.fields[i];
    FieldFound(st.fields, i);
    if v.slots[i].Present? {
      var it := Item(f.key, v.slots[i].val);
      assert FromSlot(st.fields, v.slots, it, i);
      SlotItemsElements(st.fields, v.slots, it);
      LookupIs(items, it);
    } else {
      LookupFound(items, f.key);
      if Lookup(items, f.key).Present? {
        var it := Item(f.key, Lookup(items, f.key).val);
        SlotItemsElements(st.fields, v.slots, it);
      }
    }
  }
}
