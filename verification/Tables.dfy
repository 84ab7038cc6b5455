/**
  Tables written as rows of key names: when such a table is well formed and
  written in key order, and what that gives for the values it describes.
 */
module Tables {
  import opened Common
  import opened Cbor
  import opened CdeOrder
  import opened Value
  import opened Schema
  import opened SchemaItems
  import opened SchemaForms
  import opened SchemaSound
  import opened SchemaRoundTrip
  import opened SchemaEncoder

  /** A key or tag name of the schema. */
  type Name = s: string | |s| < 32

  datatype Row = Row(name: Name, shape: Shape, presence: Presence)

  function Key(name: Name): Label {
    TextLabel(Ascii(name))
  }

  lemma NameIsText(name: Name)
    ensures TextValue(Ascii(name))
  {
    AsciiText(name);
  }

  function Fields(rows: seq<Row>): (r: seq<Field>)
    ensures |r| == |rows|
    ensures forall i :: 0 <= i < |rows| ==> r[i] == Field(Key(rows[i].name), rows[i].shape, rows[i].presence)
  {
    seq(|rows|, i requires 0 <= i < |rows| => Field(Key(rows[i].name), rows[i].shape, rows[i].presence))
  }

  function Table(rows: seq<Row>): (sh: Shape)
    ensures sh.StructShape?
  {
    StructShape(Fields(rows), Closed, false)
  }

  /** A struct with an open tail, assembled by the sorting builder. */
  function OpenTable(rows: seq<Row>): (sh: Shape)
    ensures sh.StructShape?
  {
    StructShape(Fields(rows), Open(AnyShape), false)
  }

  // --- key order of names -----------------------------------------------------------------

  /** Enough to decide the order of every two neighbouring keys of the schema. */
  predicate Precedes(a: Name, b: Name) {
    || |a| < |b|
    || (|a| == |b| && |a| > 0 && a[0] < b[0] < '\U{0080}')
    || (|a| == |b| && |a| > 1 && a[0] == b[0] && a[1] < b[1] < '\U{0080}')
  }

  lemma PrecedesOrders(a: Name, b: Name)
    requires Precedes(a, b)
    ensures CdeLess(EncodeLabel(Key(a)), EncodeLabel(Key(b)))
  {
    var x, y := Ascii(a), Ascii(b);
    if |a| == |b| {
      FirstDifference(a, b);
      LexSamePrefix(HeadBytes(3, |x|), x, y);
    } else {
      ShortHead(|x|);
      ShortHead(|y|);
    }
  }

  lemma ShortHead(n: nat)
    requires n < 32
    ensures |HeadBytes(3, n)| == if n <= 23 then 1 else 2
  {
  }

  lemma FirstDifference(a: Name, b: Name)
    requires Precedes(a, b) && |a| == |b|
    ensures LexLess(Ascii(a), Ascii(b))
  {
    var x, y := Ascii(a), Ascii(b);
    if a[0] == b[0] { assert x[1..][0] < y[1..][0]; }
  }

  predicate Climbing(rows: seq<Row>) {
    forall i :: 0 < i < |rows| ==> Precedes(rows[i - 1].name, rows[i].name)
  }

  const FIELD_KEY: Field -> Bytes := (f: Field) => EncodeLabel(f.key)

  lemma {:induction false} ClimbingPair(rows: seq<Row>, i: nat, j: nat)
    requires Climbing(rows) && i < j < |rows|
    ensures CdeLess(EncodeLabel(Key(rows[i].name)), EncodeLabel(Key(rows[j].name)))
  {
    hide CdeLess, EncodeLabel, Precedes;
    PrecedesOrders(rows[j - 1].name, rows[j].name);
    if i < j - 1 {
      ClimbingPair(rows, i, j - 1);
      CdeTransitive(EncodeLabel(Key(rows[i].name)), EncodeLabel(Key(rows[j - 1].name)), EncodeLabel(Key(rows[j].name)));
    }
  }

  lemma ClimbingAscends(rows: seq<Row>)
    requires Climbing(rows)
    ensures Ascending(FIELD_KEY, Fields(rows)) && DistinctFields(Fields(rows))
  {
    hide EncodeLabel, CdeLess, Climbing;
    forall i, j | 0 <= i < j < |rows|
      ensures CdeLess(FIELD_KEY(Fields(rows)[i]), FIELD_KEY(Fields(rows)[j])) && Fields(rows)[i].key != Fields(rows)[j].key
    {
      ClimbingPair(rows, i, j);
      CdeTrichotomy(FIELD_KEY(Fields(rows)[i]), FIELD_KEY(Fields(rows)[i]));
    }
  }

  // --- tables whose encoders write keys in order -------------------------------------------------

  predicate Sorted(sh: Shape)
    decreases sh, 1
  {
    match sh
    case ListShape(elem) => Sorted(elem)
    case TupleShape(elems) => forall i :: 0 <= i < |elems| ==> Sorted(elems[i])
    case StructShape(_, _, _) => SortedStruct(sh)
    case UnionShape(_, cases, _) => forall i :: 0 <= i < |cases| ==> SortedCase(cases[i])
    case _ => true
  }

  predicate SortedStruct(st: Shape)
    requires st.StructShape?
    decreases st, 0
  {
    && (Built(st) || Ascending(FIELD_KEY, st.fields))
    && (forall i :: 0 <= i < |st.fields| ==> SortedField(st.fields[i]))
    && SortedTail(st.tail)
  }

  predicate SortedField(f: Field)
    decreases f, 0
  {
    Sorted(f.shape)
  }

  predicate SortedTail(t: Tail)
    decreases t, 0
  {
    match t
    case Closed => true
    case Open(sh) => Sorted(sh)
  }

  predicate SortedCase(c: Case)
    decreases c, 0
  {
    Sorted(c.shape)
  }

  lemma SortedShapeFor(st: Shape, l: Label)
    requires st.StructShape? && SortedStruct(st) && ShapeFor(st, l).Yes?
    ensures Sorted(ShapeFor(st, l).value)
  {
    var i := FieldIndex(st.fields, l);
    if i < |st.fields| {
      assert SortedField(st.fields[i]);
    }
  }

  /** A subsequence of ascending fields is ascending. */
  lemma {:induction false} SlotItemsAscend(fields: seq<Field>, slots: seq<Slot>)
    requires |fields| == |slots| && Ascending(FIELD_KEY, fields)
    ensures Ascending(ITEM_KEY, SlotItems(fields, slots))
  {
    hide CdeLess, EncodeLabel;
    if fields != [] {
      var rest := SlotItems(fields[1..], slots[1..]);
      SlotItemsAscend(fields[1..], slots[1..]);
      forall j | 0 <= j < |rest|
        ensures CdeLess(FIELD_KEY(fields[0]), ITEM_KEY(rest[j]))
      {
        SlotItemsElements(fields[1..], slots[1..], rest[j]);
        var i: nat :| FromSlot(fields[1..], slots[1..], rest[j], i);
        assert fields[i + 1].key == rest[j].key;
        assert CdeLess(FIELD_KEY(fields[0]), FIELD_KEY(fields[i + 1]));
      }
    }
  }

  lemma ClosedHasNoTail(st: Shape, v: Val)
    requires st.StructShape? && st.tail.Closed? && WFRecord(st, v)
    ensures v.extra == []
  {
    hide WF;
    if v.extra != [] {
      var it := v.extra[0];
      assert it == RecordItems(st, v)[|SlotItems(st.fields, v.slots)|];
      assert WFItem(st, it);
    }
  }

  lemma RecordAscends(st: Shape, v: Val)
    requires st.StructShape? && WFRecord(st, v) && Ascending(FIELD_KEY, st.fields)
    requires st.tail.Closed? || st.fields == []
    ensures Ascending(ITEM_KEY, RecordItems(st, v))
  {
    hide CdeLess, WFItem;
    SlotItemsAscend(st.fields, v.slots);
    if st.tail.Closed? {
      ClosedHasNoTail(st, v);
      assert RecordItems(st, v) == SlotItems(st.fields, v.slots);
    } else {
      assert RecordItems(st, v) == v.extra;
    }
  }

  /** Where every table is in order, so is every value. */
  lemma {:induction false} SortedTidy(sh: Shape, v: Val)
    requires Sorted(sh) && WF(sh, v)
    ensures Tidy(sh, v)
    decreases sh
  {
    match sh
    case ListShape(elem) =>
      forall i | 0 <= i < |v.items| ensures Tidy(elem, v.items[i]) { SortedTidy(elem, v.items[i]); }
    case TupleShape(elems) =>
      forall i | 0 <= i < |elems| ensures Tidy(elems[i], v.items[i]) { SortedTidy(elems[i], v.items[i]); }
    case StructShape(_, _, _) => SortedTidyRecord(sh, v);
    case UnionShape(disc, cases, _) =>
      if v.Tagged? {
        var c := FindCase(cases, v.tag).value;
        CaseSmaller(sh, c, v.tag);
        var i :| 0 <= i < |cases| && cases[i] == Case(v.tag, c);
        assert SortedCase(cases[i]);
        SortedTidy(c, v.body);
      }
    case _ =>
  }

  lemma {:induction false} SortedTidyRecord(st: Shape, v: Val)
    requires st.StructShape? && SortedStruct(st) && WFRecord(st, v)
    ensures TidyRecord(st, v)
    decreases st, 0
  {
    hide Sorted, WF, Tidy, Ascending;
    var items := RecordItems(st, v);
    if !Built(st) { RecordAscends(st, v); }
    forall i | 0 <= i < |items|
      ensures TidyItem(st, items[i])
    {
      assert WFItem(st, items[i]);
      SortedShapeFor(st, items[i].key);
      SortedTidy(ShapeFor(st, items[i].key).value, items[i].val);
    }
  }

  // --- rows -------------------------------------------------------------------------------------------

  /** Well formed, and written in order throughout. */
  predicate Sound(sh: Shape) {
    Good(sh) && Sorted(sh)
  }

  predicate SoundRow(row: Row) {
    Sound(row.shape) && !row.presence.Implied?
  }

  predicate GoodRow(row: Row) {
    Good(row.shape)
  }

  lemma RowsGood(rows: seq<Row>)
    requires DistinctFields(Fields(rows)) && forall i :: 0 <= i < |rows| ==> GoodRow(rows[i])
    ensures GoodStruct(Table(rows))
  {
    hide Good, Ascii, ValidUtf8;
    forall i | 0 <= i < |rows|
      ensures GoodField(false, Fields(rows)[i])
    {
      NameIsText(rows[i].name);
      assert GoodRow(rows[i]);
    }
  }

  lemma TableSound(rows: seq<Row>)
    requires Climbing(rows) && forall i :: 0 <= i < |rows| ==> SoundRow(rows[i])
    ensures Sound(Table(rows))
  {
    hide Ascii, ValidUtf8, Climbing, Ascending;
    RowsSorted(rows);
    forall i | 0 <= i < |rows|
      ensures GoodRow(rows[i]) && !Fields(rows)[i].presence.Implied?
    {
      assert SoundRow(rows[i]);
    }
    ClimbingAscends(rows);
    RowsGood(rows);
  }

  lemma RowsSorted(rows: seq<Row>)
    requires Climbing(rows) && forall i :: 0 <= i < |rows| ==> Sorted(rows[i].shape)
    ensures SortedStruct(Table(rows))
  {
    hide Sorted, Climbing, Ascending, Ascii;
    ClimbingAscends(rows);
    forall i | 0 <= i < |rows|
      ensures SortedField(Fields(rows)[i])
    {
    }
  }

  lemma OpenTableSound(rows: seq<Row>)
    requires rows != [] && Climbing(rows) && forall i :: 0 <= i < |rows| ==> SoundRow(rows[i])
    ensures Sound(OpenTable(rows))
  {
    assert forall i :: 0 <= i < |rows| ==> GoodRow(rows[i]) && Sorted(rows[i].shape) by {
      forall i | 0 <= i < |rows| ensures GoodRow(rows[i]) && Sorted(rows[i].shape) { assert SoundRow(rows[i]); }
    }
    OpenFormed(rows);
    hide Ascii, ValidUtf8, Climbing, Ascending;
    assert GoodStruct(OpenTable(rows)) && SortedStruct(OpenTable(rows));
    forall i | 0 <= i < |rows|
      ensures !Fields(rows)[i].presence.Implied?
    {
      assert SoundRow(rows[i]);
    }
  }

  lemma OpenFormed(rows: seq<Row>)
    requires rows != [] && Climbing(rows) && forall i :: 0 <= i < |rows| ==> GoodRow(rows[i]) && Sorted(rows[i].shape)
    ensures GoodStruct(OpenTable(rows)) && SortedStruct(OpenTable(rows))
  {
    hide Ascii, ValidUtf8, Climbing, Ascending;
    ClimbingAscends(rows);
    RowsSorted(rows);
    RowsGood(rows);
    var st, closed := OpenTable(rows), Table(rows);
    assert st.fields == closed.fields;
    assert Good(AnyShape) && Sorted(AnyShape);
  }

  /** A case of a two-pass union: row `k` holds the discriminant. */
  lemma CaseGood(disc: Name, tag: Name, rows: seq<Row>, k: nat)
    requires DistinctFields(Fields(rows))
    requires k < |rows| && rows[k].name == disc && rows[k].shape == LiteralShape(Ascii(tag)) && !rows[k].presence.Optional?
    requires forall i :: 0 <= i < |rows| && i != k ==> GoodRow(rows[i]) && !rows[i].presence.Implied?
    ensures GoodCase(Ascii(disc), Case(Ascii(tag), Table(rows)))
  {
    hide Ascii, ValidUtf8;
    NameIsText(tag);
    assert GoodRow(rows[k]);
    RowsGood(rows);
    var fields := Fields(rows);
    FieldFound(fields, k);
    assert fields[k].key == TextLabel(Ascii(disc));
  }

  /** An ordered case: also sorted. */
  lemma CaseSorted(disc: Name, tag: Name, rows: seq<Row>, k: nat)
    requires Climbing(rows) && k < |rows| && rows[k].name == disc && rows[k].shape == LiteralShape(Ascii(tag))
    requires !rows[k].presence.Optional?
    requires forall i :: 0 <= i < |rows| && i != k ==> SoundRow(rows[i])
    ensures GoodCase(Ascii(disc), Case(Ascii(tag), Table(rows))) && Sorted(Table(rows))
  {
    hide Ascii, ValidUtf8, Climbing, Good, GoodCase;
    forall i | 0 <= i < |rows|
      ensures Sorted(rows[i].shape) && (i != k ==> GoodRow(rows[i]) && !rows[i].presence.Implied?)
    {
      if i != k { assert SoundRow(rows[i]); }
    }
    ClimbingAscends(rows);
    CaseGood(disc, tag, rows, k);
    RowsSorted(rows);
  }

  /** A closed record is in order exactly when each of its field values is. */
  lemma TableTidy(rows: seq<Row>, v: Val)
    requires Climbing(rows) && WFRecord(Table(rows), v)
    ensures v.Record? && |v.slots| == |rows|
    ensures Tidy(Table(rows), v) <==>
            forall i :: 0 <= i < |rows| && v.slots[i].Present? ==> Tidy(rows[i].shape, v.slots[i].val)
  {
    hide Ascii, WF, Climbing, Tidy, CdeLess, EncodeLabel;
    var st := Table(rows);
    ClimbingAscends(rows);
    RecordAscends(st, v);
    ClosedHasNoTail(st, v);
    var items := RecordItems(st, v);
    assert items == SlotItems(st.fields, v.slots);
    TidyUnfold(st, v);
    if TidyItems(st, items) {
      forall i | 0 <= i < |rows| && v.slots[i].Present?
        ensures Tidy(rows[i].shape, v.slots[i].val)
      {
        SlotTidy(rows, v, i);
      }
    }
    if forall i :: 0 <= i < |rows| && v.slots[i].Present? ==> Tidy(rows[i].shape, v.slots[i].val) {
      forall j | 0 <= j < |items|
        ensures TidyItem(st, items[j])
      {
        SlotItemsElements(st.fields, v.slots, items[j]);
        var i: nat :| FromSlot(st.fields, v.slots, items[j], i);
        FieldFound(st.fields, i);
      }
    }
  }

  lemma TidyUnfold(st: Shape, v: Val)
    requires st.StructShape? && v.Record? && |v.slots| == |st.fields|
    ensures Tidy(st, v) <==> TidyRecord(st, v)
  {
  }

  lemma SlotTidy(rows: seq<Row>, v: Val, i: nat)
    requires v.Record? && |v.slots| == |rows| && i < |rows| && v.slots[i].Present? && v.extra == []
    requires DistinctFields(Fields(rows)) && TidyItems(Table(rows), RecordItems(Table(rows), v))
    ensures Tidy(rows[i].shape, v.slots[i].val)
  {
    hide Ascii, Tidy;
    var st := Table(rows);
    var it := Item(st.fields[i].key, v.slots[i].val);
    assert FromSlot(st.fields, v.slots, it, i);
    SlotItemsElements(st.fields, v.slots, it);
    assert it in RecordItems(st, v);
    var j :| 0 <= j < |RecordItems(st, v)| && RecordItems(st, v)[j] == it;
    assert TidyItem(st, it);
    FieldFound(st.fields, i);
  }
}
