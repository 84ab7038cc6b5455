/**
  Every byte string a table-driven decoder accepts is the sorted encoding of
  what it returns, through nested maps, open tails and two-pass dispatch.
 */
module SchemaCanonical {
  import opened Common
  import opened Cbor
  import opened CdeOrder
  import opened Value
  import opened Schema
  import opened SchemaItems
  import opened SchemaForms

  // --- the unchecked skip agrees with every reader -------------------------------------------

  lemma SkipText(s: Bytes)
    requires ReadText(s).Ok?
    ensures Skip(s) == Ok(ReadText(s).value.1)
  {
  }

  lemma SkipBytes(s: Bytes)
    requires ReadBytes(s).Ok?
    ensures Skip(s) == Ok(ReadBytes(s).value.1)
  {
  }

  lemma SkipInt(s: Bytes)
    ensures ReadUint(s).Ok? ==> Skip(s) == Ok(ReadUint(s).value.1)
    ensures ReadInt(s).Ok? ==> Skip(s) == Ok(ReadInt(s).value.1)
  {
  }

  lemma SkipLabel(labels: bool, s: Bytes)
    requires ReadLabel(labels, s).Ok?
    ensures Skip(s) == Ok(ReadLabel(labels, s).value.1)
  {
    SkipInt(s);
    if ReadText(s).Ok? { SkipText(s); }
  }

  lemma SkipCounted(s: Bytes, major: nat)
    requires major == 4 || major == 5
    requires ReadCount(s, major).Ok?
    ensures Skip(s) == SkipItems(ReadCount(s, major).value.1, (major - 3) * ReadCount(s, major).value.0)
  {
  }

  /** Where a reader succeeds, skipping unchecked ends at the same place. */
  lemma {:induction false} SkipShape(sh: Shape, s: Bytes)
    requires DecodeShape(sh, s).Ok?
    ensures Skip(s) == Ok(DecodeShape(sh, s).value.1)
    decreases |s|, sh, 0
  {
    match sh
    case UintShape => SkipInt(s);
    case IntShape => SkipInt(s);
    case BytesShape => SkipBytes(s);
    case SizedShape(_) => SkipBytes(s);
    case TextShape => SkipText(s);
    case EnumShape(_) => SkipText(s);
    case LiteralShape(_) => SkipText(s);
    case NullableBytesShape => if s[0] != 0xF6 { SkipBytes(s); }
    case AnyShape => SkipAgrees(s);
    case ListShape(elem) =>
      SkipCounted(s, 4);
      SkipList(elem, ReadCount(s, 4).value.1, ReadCount(s, 4).value.0);
    case TupleShape(elems) =>
      SkipCounted(s, 4);
      SkipTuple(elems, ReadCount(s, 4).value.1);
    case StructShape(_, _, _) =>
      SkipCounted(s, 5);
      SkipFields(sh, ReadCount(s, 5).value.1, ReadCount(s, 5).value.0, First);
    case UnionShape(disc, cases, _) =>
      var tag := Scan(disc, s).value;
      if FindCase(cases, tag).Yes? {
        CaseSmaller(sh, FindCase(cases, tag).value, tag);
        SkipShape(FindCase(cases, tag).value, s);
      } else {
        SkipCounted(s, 5);
        SkipFree(ReadCount(s, 5).value.1, ReadCount(s, 5).value.0, []);
      }
    case OutcomeShape(st) =>
      SkipCounted(s, 5);
      SkipFields(st, ReadCount(s, 5).value.1, ReadCount(s, 5).value.0, First);
  }

  lemma {:induction false} SkipList(elem: Shape, s: Bytes, n: nat)
    requires DecodeList(elem, s, n).Ok?
    ensures SkipItems(s, n) == Ok(DecodeList(elem, s, n).value.1)
    decreases |s|, elem, n
  {
    hide DecodeShape, Skip;
    if n > 0 {
      SkipShape(elem, s);
      SkipList(elem, DecodeShape(elem, s).value.1, n - 1);
    }
  }

  lemma {:induction false} SkipTuple(elems: seq<Shape>, s: Bytes)
    requires DecodeTuple(elems, s).Ok?
    ensures SkipItems(s, |elems|) == Ok(DecodeTuple(elems, s).value.1)
    decreases |s|, elems, 1
  {
    hide DecodeShape, Skip;
    if elems != [] {
      SkipShape(elems[0], s);
      SkipTuple(elems[1..], DecodeShape(elems[0], s).value.1);
    }
  }

  lemma {:induction false} SkipItem(st: Shape, s: Bytes, prev: Previous, n: nat)
    requires st.StructShape? && DecodeItem(st, s, prev).Ok? && n > 0
    ensures SkipItems(s, 2 * n) == SkipItems(DecodeItem(st, s, prev).value.1, 2 * (n - 1))
    decreases |s|, st, 1
  {
    hide DecodeShape, Skip, ReadLabel;
    var (l, t) := ReadLabel(st.labels, s).value;
    SkipLabel(st.labels, s);
    SkipShape(ShapeFor(st, l).value, t);
    var u := DecodeShape(ShapeFor(st, l).value, t).value.1;
    assert SkipItems(s, 2 * n) == SkipItems(t, 2 * n - 1);
    assert SkipItems(t, 2 * n - 1) == SkipItems(u, 2 * n - 2);
  }

  lemma {:induction false} SkipFields(st: Shape, s: Bytes, n: nat, prev: Previous)
    requires st.StructShape? && DecodeFields(st, s, n, prev).Ok?
    ensures SkipItems(s, 2 * n) == Ok(DecodeFields(st, s, n, prev).value.1)
    decreases |s|, st, 2
  {
    hide DecodeItem, Skip, EncodeLabel;
    if n > 0 {
      var (it, t) := DecodeItem(st, s, prev).value;
      SkipItem(st, s, prev, n);
      SkipFields(st, t, n - 1, After(EncodeLabel(it.key)));
    }
  }

  lemma {:induction false} SkipFree(s: Bytes, n: nat, acc: seq<Item>)
    requires DecodeFree(s, n, acc).Ok?
    ensures SkipItems(s, 2 * n) == Ok(DecodeFree(s, n, acc).value.1)
    decreases n
  {
    hide DecodeValue, Skip, ReadText, InsertItem;
    if n > 0 {
      var (x, t) := ReadText(s).value;
      var (v, u) := DecodeValue(t).value;
      SkipTextAndValue(s, n);
      SkipFree(u, n - 1, InsertItem(acc, Item(TextLabel(x), Any(v))).value);
    }
  }

  lemma SkipTextAndValue(s: Bytes, n: nat)
    requires n > 0 && ReadText(s).Ok? && DecodeValue(ReadText(s).value.1).Ok?
    ensures SkipItems(s, 2 * n) == SkipItems(DecodeValue(ReadText(s).value.1).value.1, 2 * (n - 1))
  {
    hide DecodeValue, Skip, ReadText;
    var t := ReadText(s).value.1;
    var u := DecodeValue(t).value.1;
    SkipText(s);
    SkipAgrees(t);
    assert SkipItems(s, 2 * n) == SkipItems(t, 2 * n - 1);
    assert SkipItems(t, 2 * n - 1) == SkipItems(u, 2 * n - 2);
  }

  // --- the first pass sees what the second pass reads ----------------------------------------------

  /** What the first pass reports for entries the second pass reads. */
  function Discriminant(disc: Bytes, tag: Bytes, items: seq<Item>, found: Opt<Bytes>): Opt<Bytes> {
    if HasKey(items, TextLabel(disc)) then Yes(tag) else found
  }

  /** Once the discriminant was found, no later key is it again. */
  predicate Settled(disc: Bytes, prev: Previous, found: Opt<Bytes>) {
    found.Yes? ==> prev.After? && !CdeLess(prev.key, TextItem(disc))
  }

  /** The key loop unfolded once. */
  lemma FieldsStep(st: Shape, s: Bytes, n: nat, prev: Previous)
    requires st.StructShape? && n > 0 && DecodeFields(st, s, n, prev).Ok?
    ensures DecodeItem(st, s, prev).Ok?
    ensures var (it, t) := DecodeItem(st, s, prev).value;
            var rest := DecodeFields(st, t, n - 1, After(EncodeLabel(it.key)));
            rest.Ok? && DecodeFields(st, s, n, prev).value == ([it] + rest.value.0, rest.value.1)
  {
  }

  /** One entry unfolded. */
  lemma ItemStep(st: Shape, s: Bytes, prev: Previous)
    requires st.StructShape? && DecodeItem(st, s, prev).Ok?
    ensures ReadLabel(st.labels, s).Ok?
    ensures var (it, u) := DecodeItem(st, s, prev).value;
            var (l, t) := ReadLabel(st.labels, s).value;
            && it.key == l && Before(prev, EncodeLabel(l)) && ShapeFor(st, l).Yes?
            && DecodeShape(ShapeFor(st, l).value, t) == Ok((it.val, u))
  {
  }

  lemma {:induction false} ScanSees(st: Shape, disc: Bytes, tag: Bytes, s: Bytes, n: nat, prev: Previous, found: Opt<Bytes>)
    requires st.StructShape? && GoodStruct(st) && HoldsLiteral(st, disc, tag) && DecodeFields(st, s, n, prev).Ok?
    requires Settled(disc, prev, found)
    ensures ScanFields(disc, s, n, prev, found) == Ok(Discriminant(disc, tag, DecodeFields(st, s, n, prev).value.0, found))
    decreases n
  {
    hide DecodeItem, Skip, ReadText, GoodStruct, TextItem, HoldsLiteral;
    if n > 0 {
      FieldsStep(st, s, n, prev);
      ScanStep(st, disc, tag, s, n, prev, found);
      var (it, t) := DecodeItem(st, s, prev).value;
      var x := it.key.text;
      var p := After(TextItem(x));
      var items := DecodeFields(st, t, n - 1, p).value.0;
      if x == disc {
        SettledExcludes(st, t, n - 1, disc);
        ScanSees(st, disc, tag, t, n - 1, p, Yes(tag));
      } else {
        ScanSees(st, disc, tag, t, n - 1, p, found);
      }
      HasKeyCons(it, items, TextLabel(disc));
    }
  }

  /** The first pass takes the same step as the second, on the same bytes. */
  lemma ScanStep(st: Shape, disc: Bytes, tag: Bytes, s: Bytes, n: nat, prev: Previous, found: Opt<Bytes>)
    requires st.StructShape? && GoodStruct(st) && HoldsLiteral(st, disc, tag) && n > 0 && DecodeItem(st, s, prev).Ok?
    requires Settled(disc, prev, found)
    ensures DecodeItem(st, s, prev).value.0.key.TextLabel?
    ensures var (it, t) := DecodeItem(st, s, prev).value;
            var found' := if it.key.text == disc then Yes(tag) else found;
            && Settled(disc, After(TextItem(it.key.text)), found')
            && ScanFields(disc, s, n, prev, found) == ScanFields(disc, t, n - 1, After(TextItem(it.key.text)), found')
  {
    hide DecodeItem, DecodeShape, Skip, ReadText, GoodStruct;
    ItemStep(st, s, prev);
    var (it, t) := DecodeItem(st, s, prev).value;
    var (x, u) := ReadText(s).value;
    CdeTrichotomy(TextItem(x), TextItem(x));
    if x == disc {
      assert found.No?;
      LiteralReads(tag, u);
    } else {
      if found.Yes? { NotBefore(prev.key, TextItem(x), TextItem(disc)); }
      SkipShape(ShapeFor(st, it.key).value, u);
    }
  }

  lemma LiteralReads(tag: Bytes, s: Bytes)
    requires DecodeShape(LiteralShape(tag), s).Ok?
    ensures ReadText(s) == Ok((tag, DecodeShape(LiteralShape(tag), s).value.1))
  {
  }

  lemma NotBefore(a: Bytes, b: Bytes, d: Bytes)
    requires CdeLess(a, b) && !CdeLess(a, d)
    ensures !CdeLess(b, d)
  {
    if CdeLess(b, d) { CdeTransitive(a, b, d); }
  }

  lemma HasKeyCons(it: Item, items: seq<Item>, l: Label)
    ensures HasKey([it] + items, l) <==> it.key == l || HasKey(items, l)
  {
    if it.key == l { assert ([it] + items)[0].key == l; }
    if HasKey(items, l) {
      var i :| 0 <= i < |items| && items[i].key == l;
      assert ([it] + items)[i + 1].key == l;
    }
    if HasKey([it] + items, l) && it.key != l {
      var i :| 0 <= i < |[it] + items| && ([it] + items)[i].key == l;
      assert items[i - 1].key == l;
    }
  }

  lemma SettledExcludes(st: Shape, s: Bytes, n: nat, disc: Bytes)
    requires st.StructShape? && DecodeFields(st, s, n, After(TextItem(disc))).Ok?
    ensures !HasKey(DecodeFields(st, s, n, After(TextItem(disc))).value.0, TextLabel(disc))
  {
    var prev := After(TextItem(disc));
    var items := DecodeFields(st, s, n, prev).value.0;
    FieldsAscend(st, s, n, prev);
    AscendingFromIff(ITEM_KEY, prev, items);
    if HasKey(items, TextLabel(disc)) {
      var i :| 0 <= i < |items| && items[i].key == TextLabel(disc);
      assert Before(prev, ITEM_KEY(items[i]));
      CdeTrichotomy(TextItem(disc), TextItem(disc));
    }
  }

  lemma {:induction false} FieldsAscend(st: Shape, s: Bytes, n: nat, prev: Previous)
    requires st.StructShape? && DecodeFields(st, s, n, prev).Ok?
    ensures AscendingFrom(ITEM_KEY, prev, DecodeFields(st, s, n, prev).value.0)
    decreases n
  {
    hide DecodeItem;
    if n > 0 {
      FieldsStep(st, s, n, prev);
      var (it, t) := DecodeItem(st, s, prev).value;
      ItemStep(st, s, prev);
      FieldsAscend(st, t, n - 1, After(EncodeLabel(it.key)));
      AscendingCons(prev, it, DecodeFields(st, t, n - 1, After(EncodeLabel(it.key))).value.0);
    }
  }

  lemma AscendingCons(prev: Previous, it: Item, items: seq<Item>)
    requires Before(prev, EncodeLabel(it.key)) && AscendingFrom(ITEM_KEY, After(EncodeLabel(it.key)), items)
    ensures AscendingFrom(ITEM_KEY, prev, [it] + items)
  {
    assert ([it] + items)[1..] == items;
  }
}
