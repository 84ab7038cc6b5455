/**
  The encoders write a closed map in the order its fields are written down and
  sort only the maps they build.  This module proves when that is the canonical
  encoding: exactly when every closed map in the value is written in ascending
  key order (`Tidy`).
 */
module SchemaEncoder {
  import opened Common
  import opened Cbor
  import opened CdeOrder
  import opened Value
  import opened Schema
  import opened SchemaItems
  import opened SchemaForms
  import opened SchemaCanonical
  import opened SchemaSound
  import opened SchemaRoundTrip

  /** Every closed map of the value is written in ascending key order. */
  predicate Tidy(sh: Shape, v: Val)
    decreases sh, 3
  {
    match sh
    case ListShape(elem) => v.List? ==> forall i :: 0 <= i < |v.items| ==> Tidy(elem, v.items[i])
    case TupleShape(elems) =>
      v.List? && |v.items| == |elems| ==> forall i :: 0 <= i < |elems| ==> Tidy(elems[i], v.items[i])
    case StructShape(_, _, _) => v.Record? && |v.slots| == |sh.fields| ==> TidyRecord(sh, v)
    case UnionShape(_, cases, _) =>
      if v.Tagged? then
        match FindCase(cases, v.tag)
        case Yes(c) => assert c < sh by { CaseSmaller(sh, c, v.tag); } Tidy(c, v.body)
        case No => true
      else true
    case _ => true
  }

  predicate TidyRecord(st: Shape, v: Val)
    requires st.StructShape? && v.Record? && |v.slots| == |st.fields|
    decreases st, 2
  {
    (Built(st) || Ascending(ITEM_KEY, RecordItems(st, v))) && TidyItems(st, RecordItems(st, v))
  }

  predicate TidyItems(st: Shape, items: seq<Item>)
    requires st.StructShape?
    decreases st, 1
  {
    forall i :: 0 <= i < |items| ==> TidyItem(st, items[i])
  }

  predicate TidyItem(st: Shape, it: Item)
    requires st.StructShape?
    decreases st, 0
  {
    match ShapeFor(st, it.key)
    case Yes(sh) => Tidy(sh, it.val)
    case No => true
  }

  // --- order does not change lengths ----------------------------------------------------------

  lemma {:induction false} InsertLength(st: Shape, it: Item, items: seq<Item>, canon: bool)
    requires st.StructShape?
    ensures |EncItems(st, Insert(ITEM_KEY, it, items), canon)| == |EncItem(st, it, canon)| + |EncItems(st, items, canon)|
  {
    hide EncItem, CdeLess;
    if items == [] || !CdeLess(ITEM_KEY(items[0]), ITEM_KEY(it)) {
      EncItemsCons(st, it, items, canon);
    } else {
      InsertLength(st, it, items[1..], canon);
      EncItemsCons(st, items[0], Insert(ITEM_KEY, it, items[1..]), canon);
    }
  }

  lemma {:induction false} SortLength(st: Shape, items: seq<Item>, canon: bool)
    requires st.StructShape?
    ensures |EncItems(st, Sort(ITEM_KEY, items), canon)| == |EncItems(st, items, canon)|
    ensures |Sort(ITEM_KEY, items)| == |items|
  {
    hide EncItem;
    SortElements(ITEM_KEY, items);
    if items != [] {
      SortLength(st, items[1..], canon);
      InsertLength(st, items[0], Sort(ITEM_KEY, items[1..]), canon);
    }
  }

  /** Sorted or not, an encoding has the same length. */
  lemma {:induction false} SameLength(sh: Shape, v: Val)
    ensures |Enc(sh, v, false)| == |Enc(sh, v, true)|
    decreases sh, 3, 0
  {
    match sh
    case ListShape(elem) => if v.List? { ListSameLength(elem, v.items); }
    case TupleShape(elems) => if v.List? && |v.items| == |elems| { TupleSameLength(elems, v.items); }
    case StructShape(_, _, _) => if v.Record? && |v.slots| == |sh.fields| { MapSameLength(sh, RecordItems(sh, v)); }
    case UnionShape(_, cases, _) =>
      if v.Tagged? && FindCase(cases, v.tag).Yes? {
        CaseSmaller(sh, FindCase(cases, v.tag).value, v.tag);
        SameLength(FindCase(cases, v.tag).value, v.body);
      }
    case OutcomeShape(st) => if st.StructShape? { MapSameLength(st, OutcomeItems(v)); }
    case _ =>
  }

  lemma {:induction false} MapSameLength(st: Shape, items: seq<Item>)
    requires st.StructShape?
    ensures |EncMap(st, items, false)| == |EncMap(st, Sort(ITEM_KEY, items), true)|
    ensures |EncMap(st, Sort(ITEM_KEY, items), false)| == |EncMap(st, Sort(ITEM_KEY, items), true)|
    decreases st, 2, 0
  {
    hide EncItems, Sort;
    ItemsSameLength(st, items);
    SortLength(st, items, false);
    SortLength(st, items, true);
  }

  lemma {:induction false} ItemsSameLength(st: Shape, items: seq<Item>)
    requires st.StructShape?
    ensures |EncItems(st, items, false)| == |EncItems(st, items, true)|
    decreases st, 1, |items|
  {
    hide Enc;
    if items != [] {
      if ShapeFor(st, items[0].key).Yes? { SameLength(ShapeFor(st, items[0].key).value, items[0].val); }
      ItemsSameLength(st, items[1..]);
    }
  }

  lemma {:induction false} ListSameLength(elem: Shape, vs: seq<Val>)
    ensures |EncList(elem, vs, false)| == |EncList(elem, vs, true)|
    decreases elem, 4, |vs|
  {
    hide Enc;
    if vs != [] {
      SameLength(elem, vs[0]);
      ListSameLength(elem, vs[1..]);
    }
  }

  lemma {:induction false} TupleSameLength(elems: seq<Shape>, vs: seq<Val>)
    requires |elems| == |vs|
    ensures |EncTuple(elems, vs, false)| == |EncTuple(elems, vs, true)|
    decreases elems, 1, 0
  {
    hide Enc;
    if elems != [] {
      SameLength(elems[0], vs[0]);
      TupleSameLength(elems[1..], vs[1..]);
    }
  }

  lemma SplitEqual(a: Bytes, b: Bytes, s: Bytes, t: Bytes)
    requires |a| == |b|
    ensures a + s == b + t <==> a == b && s == t
  {
    if a + s == b + t {
      assert a == (a + s)[..|a|] && b == (b + t)[..|b|];
      assert s == (a + s)[|a|..] && t == (b + t)[|b|..];
    }
  }

  // --- entries ------------------------------------------------------------------------------------

  /** Two orders of entries give the same bytes only if they are the same order. */
  lemma {:induction false} ItemsAgree(st: Shape, a: seq<Item>, b: seq<Item>)
    requires st.StructShape? && GoodStruct(st) && WFItems(st, a) && WFItems(st, b) && |a| == |b|
    requires SameByKey(a, b)
    ensures EncItems(st, a, false) == EncItems(st, b, true) <==> a == b && TidyItems(st, a)
    decreases st, 1, |a|
  {
    hide WF, Enc, GoodStruct, ReadLabel, EncodeLabel, EncItem, Tidy, ShapeFor, SameByKey;
    if a != [] {
      var ra, rb := EncItems(st, a[1..], false), EncItems(st, b[1..], true);
      assert WFItem(st, a[0]) && WFItem(st, b[0]);
      SameByKeyTail(a, b);
      ItemsAgree(st, a[1..], b[1..]);
      if a[0] == b[0] {
        ItemAgrees(st, a[0], ra, rb);
        assert a == [a[0]] + a[1..] && b == [b[0]] + b[1..];
        TidyItemsCons(st, a);
      } else {
        ItemsDiffer(st, a[0], b[0], ra, rb);
      }
    }
  }

  predicate SameByKey(a: seq<Item>, b: seq<Item>) {
    forall i, j :: 0 <= i < |a| && 0 <= j < |b| && a[i].key == b[j].key ==> a[i] == b[j]
  }

  lemma SameByKeyTail(a: seq<Item>, b: seq<Item>)
    requires a != [] && b != [] && SameByKey(a, b)
    ensures SameByKey(a[1..], b[1..]) && (a[0].key == b[0].key ==> a[0] == b[0])
  {
  }

  lemma TidyItemsCons(st: Shape, a: seq<Item>)
    requires st.StructShape? && a != []
    ensures TidyItems(st, a) <==> TidyItem(st, a[0]) && TidyItems(st, a[1..])
  {
    hide TidyItem;
    if TidyItem(st, a[0]) && TidyItems(st, a[1..]) {
      forall i | 0 <= i < |a|
        ensures TidyItem(st, a[i])
      {
        if i > 0 { assert a[i] == a[1..][i - 1]; }
      }
    }
  }

  lemma ItemsDiffer(st: Shape, x: Item, y: Item, s: Bytes, t: Bytes)
    requires st.StructShape? && ValidLabel(st.labels, x.key) && ValidLabel(st.labels, y.key) && x.key != y.key
    ensures EncItem(st, x, false) + s != EncItem(st, y, true) + t
  {
    hide Enc, ReadLabel, EncodeLabel, ValidLabel, ShapeFor;
    var ex := match ShapeFor(st, x.key) case Yes(sh) => Enc(sh, x.val, false) case No => [];
    var ey := match ShapeFor(st, y.key) case Yes(sh) => Enc(sh, y.val, true) case No => [];
    Associate(EncodeLabel(x.key), ex, s);
    Associate(EncodeLabel(y.key), ey, t);
    LabelReader(st.labels, x.key, [], ex + s);
    LabelReader(st.labels, y.key, [], ey + t);
  }

  lemma {:induction false} ItemAgrees(st: Shape, it: Item, s: Bytes, t: Bytes)
    requires st.StructShape? && GoodStruct(st) && WFItem(st, it)
    ensures EncItem(st, it, false) + s == EncItem(st, it, true) + t <==> TidyItem(st, it) && s == t
    decreases st, 0, 0
  {
    hide WF, Enc, GoodStruct, EncodeLabel, Tidy;
    var sh := ShapeFor(st, it.key).value;
    GoodShapeFor(st, it.key);
    SameLength(sh, it.val);
    EncodesCanonically(sh, it.val);
    SplitEqual(EncodeLabel(it.key), EncodeLabel(it.key), Enc(sh, it.val, false), Enc(sh, it.val, true));
    SplitEqual(EncItem(st, it, false), EncItem(st, it, true), s, t);
  }

  // --- maps ------------------------------------------------------------------------------------------

  lemma SameElementsByKey(a: seq<Item>, b: seq<Item>)
    requires DistinctLabels(a) && forall it :: it in b <==> it in a
    ensures SameByKey(a, b)
  {
    forall i, j | 0 <= i < |a| && 0 <= j < |b| && a[i].key == b[j].key
      ensures a[i] == b[j]
    {
      assert b[j] in a;
      var k :| 0 <= k < |a| && a[k] == b[j];
    }
  }

  lemma SortedIffAscending(items: seq<Item>)
    requires DistinctKeys(ITEM_KEY, items)
    ensures items == Sort(ITEM_KEY, items) <==> Ascending(ITEM_KEY, items)
  {
    SortAscending(ITEM_KEY, items);
    if Ascending(ITEM_KEY, items) { SortFixed(ITEM_KEY, items); }
  }

  lemma RecordItemsDistinct(st: Shape, v: Val)
    requires st.StructShape? && DistinctFields(st.fields) && WFRecord(st, v)
    ensures DistinctLabels(RecordItems(st, v)) && DistinctKeys(ITEM_KEY, RecordItems(st, v))
  {
    hide WFItem, RecordItems;
    AscendingLabels(v.extra);
    RecordDistinct(st, v);
    WFItemsLabels(st, RecordItems(st, v));
    DistinctLabelsKeys(st.labels, RecordItems(st, v));
  }

  lemma TidySame(st: Shape, a: seq<Item>, b: seq<Item>)
    requires st.StructShape? && forall it :: it in b <==> it in a
    ensures TidyItems(st, a) <==> TidyItems(st, b)
  {
    hide TidyItem;
    if TidyItems(st, a) {
      forall i | 0 <= i < |b| ensures TidyItem(st, b[i]) { assert b[i] in a; }
    }
    if TidyItems(st, b) {
      forall i | 0 <= i < |a| ensures TidyItem(st, a[i]) { assert a[i] in b; }
    }
  }

  lemma {:induction false} RecordAgrees(st: Shape, v: Val)
    requires st.StructShape? && GoodStruct(st) && WFRecord(st, v)
    ensures Enc(st, v, false) == Enc(st, v, true) <==> Tidy(st, v)
    decreases st, 2, 0
  {
    hide WFItem, RecordItems, Sort, EncItems, GoodField, GoodTail, TidyItems, Ascending, DistinctKeys, DistinctLabels, SameByKey;
    var items := RecordItems(st, v);
    var sorted := Sort(ITEM_KEY, items);
    SortElements(ITEM_KEY, items);
    SortedItems(st, v);
    RecordItemsDistinct(st, v);
    SameElementsByKey(items, sorted);
    SortedIffAscending(items);
    TidySame(st, items, sorted);
    if Built(st) {
      AscendingIff(ITEM_KEY, sorted);
      AscendingLabels(sorted);
      SameElementsByKey(sorted, sorted);
      ItemsAgree(st, sorted, sorted);
      SplitEqual(HeadBytes(5, |items|), HeadBytes(5, |items|), EncItems(st, sorted, false), EncItems(st, sorted, true));
    } else {
      ItemsAgree(st, items, sorted);
      SplitEqual(HeadBytes(5, |items|), HeadBytes(5, |items|), EncItems(st, items, false), EncItems(st, sorted, true));
    }
  }

  lemma OutcomeAgrees(o: Val)
    requires WFOutcome(o)
    ensures Enc(OutcomeShape(OUTCOME), o, false) == Enc(OutcomeShape(OUTCOME), o, true)
  {
    hide EncItems, Sort, OutcomeItems, WFRecord, GoodStruct, WFItems, AscendingFrom, Assemble, RecordItems;
    OutcomeGood();
    OutcomeRecordFormed(o);
    SortedItems(OUTCOME, OutcomeRecord(o));
    var sorted := Sort(ITEM_KEY, OutcomeItems(o));
    FlatItems(sorted);
    if o.Failed? {
      FailedDistinct(o.code, o.message);
      SortFixed(ITEM_KEY, OutcomeItems(o));
    }
  }

  /** An outcome's entries hold no nested tables, so there is nothing else to sort. */
  lemma {:induction false} FlatItems(items: seq<Item>)
    ensures EncItems(OUTCOME, items, false) == EncItems(OUTCOME, items, true)
  {
    hide Ascii;
    if items != [] {
      FlatItems(items[1..]);
      FlatShape(items[0].key);
    }
  }

  lemma FlatShape(l: Label)
    ensures ShapeFor(OUTCOME, l) == Yes(TextShape) || ShapeFor(OUTCOME, l) == Yes(AnyShape)
  {
    hide Ascii;
  }

  // --- the theorem --------------------------------------------------------------------------------------

  /** What the encoders write is the sorted encoding exactly when every closed map is in order. */
  lemma {:induction false} EncodesCanonically(sh: Shape, v: Val)
    requires Good(sh) && WF(sh, v)
    ensures Enc(sh, v, false) == Enc(sh, v, true) <==> Tidy(sh, v)
    decreases sh, 3, 0
  {
    match sh
    case ListShape(elem) => ListShapeAgrees(sh, v);
    case TupleShape(elems) => TupleShapeAgrees(sh, v);
    case StructShape(_, _, _) => RecordAgrees(sh, v);
    case UnionShape(disc, cases, open) =>
      if v.Tagged? {
        var c := FindCase(cases, v.tag).value;
        CaseSmaller(sh, c, v.tag);
        FoundCaseGood(disc, cases, v.tag);
        RecordAgrees(c, v.body);
      }
    case OutcomeShape(st) => OutcomeAgrees(v);
    case _ =>
  }

  lemma {:induction false} ListShapeAgrees(sh: Shape, v: Val)
    requires sh.ListShape? && Good(sh.elem) && WF(sh, v)
    ensures Enc(sh, v, false) == Enc(sh, v, true) <==> Tidy(sh, v)
    decreases sh, 2, 0
  {
    hide EncList, Good;
    ListAgrees(sh.elem, v.items);
    var h := HeadBytes(4, |v.items|);
    SplitEqual(h, h, EncList(sh.elem, v.items, false), EncList(sh.elem, v.items, true));
  }

  lemma {:induction false} ListAgrees(elem: Shape, vs: seq<Val>)
    requires Good(elem) && forall i :: 0 <= i < |vs| ==> WF(elem, vs[i])
    ensures EncList(elem, vs, false) == EncList(elem, vs, true) <==> forall i :: 0 <= i < |vs| ==> Tidy(elem, vs[i])
    decreases elem, 4, |vs|
  {
    hide Enc, WF, Good, Tidy;
    if vs != [] {
      SameLength(elem, vs[0]);
      EncodesCanonically(elem, vs[0]);
      ListAgrees(elem, vs[1..]);
      SplitEqual(Enc(elem, vs[0], false), Enc(elem, vs[0], true), EncList(elem, vs[1..], false), EncList(elem, vs[1..], true));
      assert forall i :: 0 < i < |vs| ==> vs[i] == vs[1..][i - 1];
    }
  }

  lemma {:induction false} TupleShapeAgrees(sh: Shape, v: Val)
    requires sh.TupleShape? && WF(sh, v) && forall i :: 0 <= i < |sh.elems| ==> Good(sh.elems[i])
    ensures Enc(sh, v, false) == Enc(sh, v, true) <==> Tidy(sh, v)
    decreases sh, 2, 0
  {
    hide EncTuple, Good;
    TupleAgrees(sh.elems, v.items);
    var h := HeadBytes(4, |v.items|);
    SplitEqual(h, h, EncTuple(sh.elems, v.items, false), EncTuple(sh.elems, v.items, true));
  }

  lemma {:induction false} TupleAgrees(elems: seq<Shape>, vs: seq<Val>)
    requires |elems| == |vs| && forall i :: 0 <= i < |elems| ==> Good(elems[i]) && WF(elems[i], vs[i])
    ensures EncTuple(elems, vs, false) == EncTuple(elems, vs, true) <==> forall i :: 0 <= i < |vs| ==> Tidy(elems[i], vs[i])
    decreases elems, 4, 0
  {
    hide Enc, WF, Good, Tidy;
    if elems != [] {
      SameLength(elems[0], vs[0]);
      EncodesCanonically(elems[0], vs[0]);
      TupleAgrees(elems[1..], vs[1..]);
      SplitEqual(Enc(elems[0], vs[0], false), Enc(elems[0], vs[0], true),
                 EncTuple(elems[1..], vs[1..], false), EncTuple(elems[1..], vs[1..], true));
      assert forall i :: 0 < i < |vs| ==> vs[i] == vs[1..][i - 1] && elems[i] == elems[1..][i - 1];
    }
  }

  // --- what a peer sees -------------------------------------------------------------------------------------

  /** A value survives encoding and decoding exactly when it is well formed and its closed maps are in order. */
  lemma RoundTripIff(sh: Shape, v: Val, t: Bytes)
    requires Good(sh)
    ensures DecodeShape(sh, Enc(sh, v, false) + t) == Ok((v, t)) <==> WF(sh, v) && Tidy(sh, v)
  {
    hide DecodeShape, Enc, WF, Good, Tidy;
    if DecodeShape(sh, Enc(sh, v, false) + t) == Ok((v, t)) {
      ShapeSound(sh, Enc(sh, v, false) + t);
      SameLength(sh, v);
      SplitEqual(Enc(sh, v, false), Enc(sh, v, true), t, t);
    }
    if WF(sh, v) {
      EncodesCanonically(sh, v);
      ShapeRoundTrip(sh, v, t);
    }
  }

  /** What was decoded re-encodes to the same bytes exactly when its closed maps are in order. */
  lemma ReencodesIff(sh: Shape, s: Bytes)
    requires Good(sh) && DecodeShape(sh, s).Ok?
    ensures var (v, t) := DecodeShape(sh, s).value;
            WF(sh, v) && (s == Enc(sh, v, false) + t <==> Tidy(sh, v))
  {
    hide DecodeShape, Enc, WF, Good, Tidy;
    var (v, t) := DecodeShape(sh, s).value;
    ShapeSound(sh, s);
    EncodesCanonically(sh, v);
    SameLength(sh, v);
    SplitEqual(Enc(sh, v, false), Enc(sh, v, true), t, t);
  }

  /** Distinct values never share an encoding, and no encoding is a prefix of another. */
  lemma SortedEncodingsPrefixFree(sh: Shape, v: Val, w: Val, s: Bytes, t: Bytes)
    requires Good(sh) && WF(sh, v) && WF(sh, w) && Enc(sh, v, true) + s == Enc(sh, w, true) + t
    ensures v == w && s == t
  {
    hide DecodeShape, Enc, WF, Good;
    ShapeRoundTrip(sh, v, s);
    ShapeRoundTrip(sh, w, t);
  }
}
